/** Dust cleaning makes closing and reopening a block visible. */
module DustExamples {
  import opened Primitives
  import opened WorldState
  import opened Externalities
  import opened Executive
  import CallTree
  import opened Transact
  import opened BlockBuilding
  import SettlementExamples

  // ----- a chain whose machine fails on every creation and stops at once on every call

  const AUTHOR: Address := 1
  const POOR: Address := 2
  const PAYEE: Address := 3
  const RICH: Address := 4

  function EnvOf(mode: CleanDustMode): Env {
    Env(
      schedule := SettlementExamples.SCHEDULE.(killDust := mode),
      nextRequest := (p: ActionParams, _, _) => if p.callType.NoCall? then Fail(OutOfGas) else Stop(Known(p.gas)),
      stepBound := _ => 0,
      builtin := _ => None,
      blockNumber := 1,
      lastHash := _ => 0,
      codeHash := _ => 0,
      contractAddress := (_, _, _, _) => POOR)
  }

  /** The entry that a reverted creation over an existing account leaves: clean, with the balance that the
      new contract was endowed with. */
  function StaleEntries(w: World, t: Transaction): LoadedBalances {
    if t.action.Create? then map[POOR := Loaded(Some(SaturatingAdd(t.value, w.Balance(POOR))), false)] else map[]
  }

  /** With commits, block 1 comes before every transition, and nothing is created in it. */
  function EngineOf(mode: CleanDustMode, commits: bool): Engine {
    Engine(
      env := _ => EnvOf(mode),
      scheme := _ => FromSenderAndNonce,
      entries := (_, w, _, t) => if commits then map[] else StaleEntries(w, t),
      eip658Transition := if commits then 2 else 0,
      eip98Transition := 2,
      validateReceiptsTransition := 2,
      maximumUncleCount := _ => 2,
      closeStep := _ => NoRewards,
      transactionHash := (t: Transaction) => t.gasPrice,
      transactionsRoot := _ => 0,
      unclesHash := _ => 0,
      receiptsRoot := _ => 0,
      stateRoot := m => if POOR in m then 1 else 0,
      logsBloom := _ => {})
  }

  const START := World(map[POOR := Account(100, 0, [], map[]), RICH := Account(1_000_000, 0, [], map[])], [], 0)

  const BLOCK := ExecutedBlock(
    header := Header(0, 1, AUTHOR, 0, 0, 1_000_000, [], NO_DERIVED), transactions := [], uncles := [], receipts := [],
    transactionsSet := {}, state := START, loaded := map[], traces := Disabled, lastHashes := [])

  /** The first transaction: `POOR` spends 90 of its 100, or `RICH` endows a contract at `POOR`'s address
      with 30 and its creation fails. Gas is free. */
  function First(commits: bool): Transaction {
    if commits then
      Transaction(sender := POOR, isUnsigned := false, nonce := 0, gas := 21000, gasPrice := 0, value := 90, data := [],
                  action := Action.Call(PAYEE))
    else
      Transaction(sender := RICH, isUnsigned := false, nonce := 0, gas := 53000, gasPrice := 0, value := 30, data := [],
                  action := Create)
  }

  /** The second transaction: `RICH` calls `POOR` without value, at a price that makes 21000 the dust limit. */
  function Second(commits: bool): Transaction {
    Transaction(sender := RICH, isUnsigned := false, nonce := if commits then 0 else 1, gas := 21000, gasPrice := 1,
                value := 0, data := [], action := Action.Call(POOR))
  }

  /** What the first transaction leaves to `POOR`. */
  function Left(commits: bool): U256 {
    if commits then 10 else 100
  }

  /** The balance with which `POOR` is then remembered. */
  function Remembered(commits: bool): U256 {
    if commits then 100 else 130
  }

  // ----- the machine

  lemma EnvKeepsContracts(mode: CleanDustMode)
    ensures EnvOf(mode).Terminating() && CallTree.GasMetered(EnvOf(mode))
  {
  }

  function VerdictOf(p: ActionParams): VmResult {
    if p.callType.NoCall? then Err(OutOfGas) else Ok(FinalizationResult(p.gas, [], true))
  }

  lemma MachineEnds(mode: CleanDustMode, w: World, s: Substate, f: Frame)
    ensures Interact(EnvOf(mode), w, s, f) == Halt(w, s, VerdictOf(f.params))
  {
  }

  /** What an action comes to whose machine ends with its first request. */
  lemma ActionEnds(mode: CleanDustMode, w: World, s: Substate, e: CallCreateExecutive)
    requires EnvOf(mode).Terminating()
    requires e.Fresh() && Affordable(w, e.kind.params) && BuiltinKnown(EnvOf(mode), e)
    ensures var o, p := Direct(EnvOf(mode), w, s, e), Prepare(EnvOf(mode), w, s, e);
            if p.Settled? then o.world == p.world && o.substate == p.substate && o.result == p.result
            else
              && o.result == VerdictOf(e.kind.params)
              && (o.world, o.substate) == EnactResult(o.result, p.world, p.substate, e.kind.unconfirmed)
  {
    hide Interact, EnvOf, Env.Terminating, EnactResult, VerdictOf;
    var p := Prepare(EnvOf(mode), w, s, e);
    hide Prepare;
    if p.Started? {
      MachineEnds(mode, p.world, e.kind.unconfirmed, p.frame);
    }
  }

  /** No action clears storage or destroys a contract. */
  lemma NothingToRefund(mode: CleanDustMode, c: Context, w: World, t: Transaction)
    requires c.env == EnvOf(mode) && c.env.Terminating() && Validate(c, w, t, false).None?
    ensures SettlementExamples.NoRefunds(Perform(c, w, t).substate)
  {
    hide Direct, Validate, Prepare, EnvOf, Env.Terminating, VerdictOf, GasRequired;
    var w' := Charge(c, w, t);
    TopActionAffordable(c, w, t, w.Nonce(t.sender));
    var e := TopAction(c, w', t, w.Nonce(t.sender));
    var s := ChargeTouches(c, w, t);
    TopIsNew(c, w', t, w.Nonce(t.sender));
    ActionEnds(mode, w', s, e);
    CallTree.PrepareTouchesOnly(c.env, w', s, e);
  }

  lemma TopIsNew(c: Context, w: World, t: Transaction, nonce: nat)
    requires GasRequired(t, c.env.schedule) <= t.gas
    ensures var k := TopAction(c, w, t, nonce).kind; k.ExecCall? || k.ExecCreate? ==> k.unconfirmed == NEW_SUBSTATE
  {
    hide GasRequired;
  }

  lemma Settles(mode: CleanDustMode, c: Context, w: World, t: Transaction)
    requires c.env == EnvOf(mode) && c.env.Terminating() && Validate(c, w, t, false).None?
    ensures Settleable(c, w, t)
  {
    hide Perform, Validate, EnvOf, Env.Terminating, GasRequired, CallTree.GasMetered;
    EnvKeepsContracts(mode);
    GasSuffices(c, w, t);
    NothingToRefund(mode, c, w, t);
  }

  lemma EngineRuns(mode: CleanDustMode, commits: bool)
    ensures EngineOf(mode, commits).Runs()
  {
    EnvKeepsContracts(mode);
    var e := EngineOf(mode, commits);
    assert forall info :: e.env(info) == EnvOf(mode);
    hide EnvOf, Settleable, EngineOf, Env.Terminating;
    forall info, loaded, w, t | Validate(e.Context(info, loaded), w, t, true).None?
      ensures Settleable(e.Context(info, loaded), w, t)
    {
      Settles(mode, e.Context(info, loaded), w, t);
    }
  }

  // ----- the second transaction

  /** The state in which the second transaction finds the two accounts. */
  ghost predicate Ready(w: World, commits: bool) {
    && POOR in w.accounts && w.accounts[POOR].balance == Left(commits) && w.accounts[POOR].code == []
    && RICH in w.accounts && w.accounts[RICH].balance == 1_000_000 && w.accounts[RICH].nonce == Second(commits).nonce
  }

  ghost predicate InBlock(c: Context, mode: CleanDustMode) {
    c.env == EnvOf(mode) && c.author == AUTHOR && c.gasUsed <= 53000 && c.gasLimit == 1_000_000
  }

  lemma SecondIsValid(mode: CleanDustMode, commits: bool, c: Context, w: World)
    requires InBlock(c, mode) && Ready(w, commits)
    ensures Validate(c, w, Second(commits), true).None? && Validate(c, w, Second(commits), false).None?
    ensures GasRequired(Second(commits), c.env.schedule) == 21000
    ensures Cost(21000, 1) == 21000
  {
  }

  /** The charged state: one nonce up and 21000 down. */
  lemma SecondCharges(mode: CleanDustMode, commits: bool, c: Context, w: World)
    requires InBlock(c, mode) && Ready(w, commits)
    ensures Validate(c, w, Second(commits), false).None?
    ensures var w' := Charge(c, w, Second(commits));
            && w'.accounts.Keys == w.accounts.Keys && w'.accounts[POOR] == w.accounts[POOR]
            && w'.accounts[RICH].balance == 979_000
  {
    SecondIsValid(mode, commits, c, w);
    hide Validate, GasRequired;
  }

  lemma SecondStarts(mode: CleanDustMode, c: Context, w: World, s: Substate, commits: bool, nonce: nat)
    requires InBlock(c, mode) && mode != Off && POOR in w.accounts && RICH in w.accounts
    requires GasRequired(Second(commits), c.env.schedule) == 21000
    ensures var e := TopAction(c, w, Second(commits), nonce);
            && Affordable(w, e.kind.params) && e.kind.params.callType.Call? && e.kind.params.gas == 0
            && var p := Prepare(c.env, w, s, e);
               && p.Started? && p.world == w.Checkpoint() && POOR in p.substate.touched
  {
    hide GasRequired;
  }

  /** The second transaction moves nothing and touches `POOR`. */
  lemma SecondPerforms(mode: CleanDustMode, commits: bool, c: Context, w: World)
    requires InBlock(c, mode) && mode != Off && Ready(w, commits) && c.env.Terminating()
    requires Validate(c, w, Second(commits), false).None?
    ensures var o := Perform(c, w, Second(commits));
            && o.world == Charge(c, w, Second(commits)) && o.result == Ok(FinalizationResult(0, [], true))
            && POOR in o.substate.touched && SettlementExamples.NoRefunds(o.substate)
  {
    var t := Second(commits);
    SecondIsValid(mode, commits, c, w);
    SecondCharges(mode, commits, c, w);
    hide Direct, Validate, Prepare, EnvOf, Env.Terminating, GasRequired, TopAction, Second, Charge;
    NothingToRefund(mode, c, w, t);
    var w' := Charge(c, w, t);
    TopActionAffordable(c, w, t, w.Nonce(t.sender));
    var s := ChargeTouches(c, w, t);
    SecondStarts(mode, c, w', s, commits, w.Nonce(t.sender));
    ActionEnds(mode, w', s, TopAction(c, w', t, w.Nonce(t.sender)));
  }

  lemma SecondSettles(mode: CleanDustMode, commits: bool, s: Substate)
    requires SettlementExamples.NoRefunds(s)
    ensures Settle(EnvOf(mode).schedule, Second(commits), s, Ok(FinalizationResult(0, [], true)))
            == Settlement(0, 0, 21000, 0, 21000)
  {
  }

  /** Dust cleaning kills `POOR` if and only if its balance is below the one it was loaded with. */
  lemma SecondCleans(mode: CleanDustMode, commits: bool, c: Context, w: World, s: Substate)
    requires InBlock(c, mode) && mode != Off && SettlementExamples.NoRefunds(s) && POOR in s.touched
    requires POOR in w.accounts && w.accounts[POOR].balance == Left(commits) && w.accounts[POOR].code == []
    ensures var w' := AfterSettlement(c, w, Second(commits), s, Settlement(0, 0, 21000, 0, 21000));
            var b := c.oldBalance(POOR);
            POOR in w'.accounts <==> !(b.Some? && Left(commits) < b.value)
  {
  }

  lemma SecondDecides(mode: CleanDustMode, commits: bool, c: Context, w: World)
    requires InBlock(c, mode) && mode != Off && Ready(w, commits) && c.env.Terminating()
    requires Validate(c, w, Second(commits), false).None? && Settleable(c, w, Second(commits))
    ensures var (w', r) := Applied(c, w, Second(commits));
            var b := c.oldBalance(POOR);
            r.Success? && (POOR in w'.accounts <==> !(b.Some? && Left(commits) < b.value))
  {
    var t := Second(commits);
    SecondCharges(mode, commits, c, w);
    SecondPerforms(mode, commits, c, w);
    hide Perform, Settle, AfterSettlement, EnvOf, Validate, Charge, Env.Terminating, Second, Left;
    var o := Perform(c, w, t);
    SecondSettles(mode, commits, o.substate);
    SecondCleans(mode, commits, c, o.world, o.substate);
  }

  // ----- the first transaction

  lemma FirstIsValid(mode: CleanDustMode, commits: bool, c: Context)
    requires InBlock(c, mode) && c.gasUsed == 0
    ensures Validate(c, START, First(commits), true).None? && Validate(c, START, First(commits), false).None?
    ensures GasRequired(First(commits), c.env.schedule) == First(commits).gas
    ensures forall gas: nat :: Cost(gas, 0) == 0
  {
  }

  /** Free gas makes no dust: only accounts without anything are collected. */
  lemma FirstCleansNothing(mode: CleanDustMode, commits: bool, c: Context, w: World, touched: set<Address>)
    requires InBlock(c, mode) && Ready(w, commits)
    ensures Garbage(c, First(commits), w, touched) !! {POOR, RICH}
  {
  }

  /** Whatever the first action does, its settlement changes nothing of the two accounts. */
  lemma FirstSettles(mode: CleanDustMode, commits: bool, c: Context, w: World, s: Substate, x: Settlement)
    requires InBlock(c, mode) && Ready(w, commits) && s.suicides == {} && x.refundValue == x.feesValue == 0
    ensures var w' := AfterSettlement(c, w, First(commits), s, x);
            Ready(w', commits) && w'.accounts[POOR] == w.accounts[POOR]
  {
    hide Garbage, Ready;
    assert KillAll(PayOut(c, w, First(commits), x), s.suicides) == w;
    FirstCleansNothing(mode, commits, c, w, s.Touch(PayOutTouches(c, w, First(commits), x)).touched);
    KillingOthers(w, Garbage(c, First(commits), w, s.Touch(PayOutTouches(c, w, First(commits), x)).touched), commits);
  }

  lemma KillingOthers(w: World, killed: set<Address>, commits: bool)
    requires Ready(w, commits) && killed !! {POOR, RICH}
    ensures Ready(KillAll(w, killed), commits) && KillAll(w, killed).accounts[POOR] == w.accounts[POOR]
  {
    assert POOR !in killed && RICH !in killed;
  }

  lemma FirstTransfers(mode: CleanDustMode, c: Context, s: Substate)
    requires InBlock(c, mode) && c.gasUsed == 0
    ensures Validate(c, START, First(true), false).None?
    ensures var w := Charge(c, START, First(true));
            var e := TopAction(c, w, First(true), 0);
            && Affordable(w, e.kind.params)
            && var p := Prepare(c.env, w, s, e);
               && p.Settled? && p.result == Ok(FinalizationResult(0, [], true)) && Ready(p.world, true)
               && p.world.accounts[POOR] == Account(10, 1, [], map[])
  {
    FirstIsValid(mode, true, c);
    hide Validate, GasRequired;
  }

  lemma FirstCreates(mode: CleanDustMode, c: Context, s: Substate)
    requires InBlock(c, mode) && c.gasUsed == 0
    ensures Validate(c, START, First(false), false).None?
    ensures var w := Charge(c, START, First(false));
            var e := TopAction(c, w, First(false), 0);
            && Ready(w, false) && w.accounts[POOR] == START.accounts[POOR]
            && Affordable(w, e.kind.params) && e.kind.params.callType.NoCall? && Prepare(c.env, w, s, e).Started?
  {
    FirstIsValid(mode, false, c);
    hide Validate, GasRequired;
  }

  lemma FirstPerforms(mode: CleanDustMode, commits: bool, c: Context)
    requires InBlock(c, mode) && c.gasUsed == 0 && c.env.Terminating()
    requires Validate(c, START, First(commits), false).None?
    ensures var o := Perform(c, START, First(commits));
            && Ready(o.world, commits) && !(o.result.Err? && o.result.error.Internal?)
            && SettlementExamples.NoRefunds(o.substate)
            && o.world.accounts[POOR] == if commits then Account(10, 1, [], map[]) else START.accounts[POOR]
  {
    var t := First(commits);
    FirstIsValid(mode, commits, c);
    assert START.Nonce(t.sender) == 0;
    var s := ChargeTouches(c, START, t);
    if commits {
      FirstTransfers(mode, c, s);
    } else {
      FirstCreates(mode, c, s);
    }
    NothingToRefund(mode, c, START, t);
    hide Direct, Validate, Prepare, EnvOf, Env.Terminating, GasRequired, TopAction, Charge, Ready;
    var w := Charge(c, START, t);
    ActionEnds(mode, w, s, TopAction(c, w, t, 0));
    if !commits {
      FailedTopAction(c, START, t);
    }
  }

  /** After the first transaction everything is in place for the second. */
  lemma FirstPrepares(mode: CleanDustMode, commits: bool, c: Context)
    requires InBlock(c, mode) && c.gasUsed == 0 && c.env.Terminating()
    requires Validate(c, START, First(commits), false).None? && Settleable(c, START, First(commits))
    ensures var (w, r) := Applied(c, START, First(commits));
            && r.Success? && r.executed.cumulativeGasUsed <= 53000 && Ready(w, commits)
            && w.accounts[POOR] == if commits then Account(10, 1, [], map[]) else START.accounts[POOR]
  {
    var t := First(commits);
    FirstIsValid(mode, commits, c);
    FirstPerforms(mode, commits, c);
    hide Perform, AfterSettlement, EnvOf, Validate, Env.Terminating, Ready, Cost;
    var o := Perform(c, START, t);
    var x := Settle(c.env.schedule, t, o.substate, o.result);
    assert x.refundValue == x.feesValue == 0;
    FirstSettles(mode, commits, c, o.world, o.substate, x);
  }

  // ----- the block

  lemma ContextIsInBlock(mode: CleanDustMode, commits: bool, b: ExecutedBlock, t: Transaction)
    requires b.header.author == AUTHOR && b.header.gasLimit == 1_000_000 && GasUsed(b.receipts) <= 53000
    ensures InBlock(ContextOf(EngineOf(mode, commits), b, t), mode)
    ensures ContextOf(EngineOf(mode, commits), b, t).gasUsed == GasUsed(b.receipts)
    ensures !t.action.Create? ==>
              ContextOf(EngineOf(mode, commits), b, t).oldBalance(POOR)
              == LoadedBalance(b.loaded, b.state.accounts, POOR)
  {
    hide EnvOf;
  }

  /** The block that the second transaction is pushed to: `POOR` is remembered with what it once had, in an
      entry that a clone forgets. */
  ghost predicate Remembers(b: ExecutedBlock, commits: bool) {
    && Ready(b.state, commits) && b.header == BLOCK.header && b.traces == Disabled
    && GasUsed(b.receipts) <= 53000 && b.transactionsSet == {0}
    && Get(b.loaded, POOR) == Some(Loaded(Some(Remembered(commits)), false))
  }

  lemma FirstEntry(mode: CleanDustMode, commits: bool, m: Accounts)
    requires POOR in m
    requires m[POOR] == if commits then Account(10, 1, [], map[]) else START.accounts[POOR]
    ensures var l := LoadedAfter(EngineOf(mode, commits), BLOCK, First(commits), m);
            Get(l, POOR) == Some(Loaded(Some(Remembered(commits)), commits))
  {
    hide EnvOf;
  }

  /** A push that nothing refuses. */
  lemma PushSucceeds(e: Engine, b: ExecutedBlock, t: Transaction, c: Context, w: World, r: ExecutionResult)
    requires e.Runs() && e.transactionHash(t) !in b.transactionsSet && c == ContextOf(e, b, t)
    requires Validate(c, b.state, t, true).None? && c.env.Terminating() && Validate(c, b.state, t, false).None?
    requires Settleable(c, b.state, t) && Applied(c, b.state, t) == (w, r) && r.Success?
    ensures var b', l := Pushed(e, b, t, None).0, LoadedAfter(e, b, t, w.accounts);
            && b'.header == b.header && b'.state == w
            && b'.transactionsSet == b.transactionsSet + {e.transactionHash(t)}
            && (b.traces == Disabled ==> b'.traces == Disabled)
            && GasUsed(b'.receipts) == r.executed.cumulativeGasUsed
            && b'.loaded == if e.Commits(b.header.number) then Flushed(l) else l
  {
    hide Applied, ContextOf, Validate, LoadedAfter, Settleable, Engine.Runs, Engine.Commits, Flushed;
  }

  lemma FlushedEntry(l: LoadedBalances, commits: bool, x: Option<U256>)
    requires Get(l, POOR) == Some(Loaded(x, commits))
    ensures Get(if commits then Flushed(l) else l, POOR) == Some(Loaded(x, false))
  {
  }

  lemma FirstPush(mode: CleanDustMode, commits: bool)
    requires EngineOf(mode, commits).Runs()
    ensures Remembers(Pushed(EngineOf(mode, commits), BLOCK, First(commits), None).0, commits)
  {
    var e, t := EngineOf(mode, commits), First(commits);
    hide ContextOf, EnvOf, Validate, Settleable, Engine.Runs, Applied, LoadedAfter, Flushed, Pushed;
    var c := ContextOf(e, BLOCK, t);
    ContextIsInBlock(mode, commits, BLOCK, t);
    FirstIsValid(mode, commits, c);
    ContextRuns(e, BLOCK, t);
    FirstPrepares(mode, commits, c);
    var (w, r) := Applied(c, START, t);
    FirstEntry(mode, commits, w.accounts);
    assert e.transactionHash(t) == 0 && (e.Commits(1) <==> commits);
    PushSucceeds(e, BLOCK, t, c, w, r);
    FlushedEntry(LoadedAfter(e, BLOCK, t, w.accounts), commits, Some(Remembered(commits)));
  }

  /** The second transaction kills `POOR` in a block that remembers it and spares it in one that does not. */
  lemma SecondPush(mode: CleanDustMode, commits: bool, b: ExecutedBlock)
    requires EngineOf(mode, commits).Runs() && mode != Off
    requires Ready(b.state, commits) && b.header.author == AUTHOR && b.header.gasLimit == 1_000_000
    requires GasUsed(b.receipts) <= 53000 && b.transactionsSet == {0}
    requires POOR in b.loaded ==> b.loaded[POOR].oldBalance == Some(Remembered(commits))
    ensures POOR in Pushed(EngineOf(mode, commits), b, Second(commits), None).0.state.accounts <==> POOR !in b.loaded
  {
    var e, t := EngineOf(mode, commits), Second(commits);
    hide ContextOf, EnvOf, Validate, Settleable, Engine.Runs, Applied, LoadedAfter, Flushed, Pushed;
    var c := ContextOf(e, b, t);
    ContextIsInBlock(mode, commits, b, t);
    SecondIsValid(mode, commits, c, b.state);
    ContextRuns(e, b, t);
    SecondDecides(mode, commits, c, b.state);
    var (w, r) := Applied(c, b.state, t);
    assert e.transactionHash(t) == 1;
    PushSucceeds(e, b, t, c, w, r);
  }

  lemma ReopenForgets(mode: CleanDustMode, commits: bool, b: ExecutedBlock)
    requires Remembers(b, commits)
    ensures var c := Closed(EngineOf(mode, commits), b);
            && c.Some?
            && var b' := c.value.Reopen();
               && POOR !in b'.loaded && b' == b.(header := b'.header, loaded := b'.loaded)
               && b'.header == b.header.(derived := b'.header.derived)
  {
    hide EnvOf, Ready;
  }

  lemma LockedRoot(mode: CleanDustMode, commits: bool, b: ExecutedBlock)
    ensures var l := Locked(EngineOf(mode, commits), b);
            && l.Some? && l.value.state == b.state
            && l.value.header.derived.stateRoot == if POOR in b.state.accounts then 1 else 0
  {
    hide EnvOf;
  }

  function Steps(commits: bool): seq<Step> {
    [PushTransaction(First(commits), None), CloseAndReopen, PushTransaction(Second(commits), None)]
  }

  lemma StepsRun(e: Engine, commits: bool)
    requires e.Runs()
    ensures var b := Pushed(e, BLOCK, First(commits), None).0;
            && Run(e, BLOCK, NeverClosed(Steps(commits))) == Some(Pushed(e, b, Second(commits), None).0)
            && (Closed(e, b).Some? ==>
                 Run(e, BLOCK, Steps(commits)) == Some(Pushed(e, Closed(e, b).value.Reopen(), Second(commits), None).0))
  {
    hide *;
    var first, second := PushTransaction(First(commits), None), PushTransaction(Second(commits), None);
    StepsAre(commits);
    var b := Pushed(e, BLOCK, First(commits), None).0;
    RunNothing(e, BLOCK);
    StepIs(e, BLOCK, First(commits));
    StepIs(e, b, Second(commits));
    assert [] + [first] == [first] && [first] + [second] == [first, second];
    RunOneMore(e, BLOCK, [], first);
    RunOneMore(e, BLOCK, [first], second);
    if Closed(e, b).Some? {
      StepIs(e, Closed(e, b).value.Reopen(), Second(commits));
      assert [first] + [CloseAndReopen] == [first, CloseAndReopen];
      assert [first, CloseAndReopen] + [second] == [first, CloseAndReopen, second];
      RunOneMore(e, BLOCK, [first], CloseAndReopen);
      RunOneMore(e, BLOCK, [first, CloseAndReopen], second);
    }
  }

  lemma StepIs(e: Engine, b: ExecutedBlock, t: Transaction)
    requires e.Runs()
    ensures Stepped(e, b, PushTransaction(t, None)) == Some(Pushed(e, b, t, None).0)
    ensures Closed(e, b).Some? ==> Stepped(e, b, CloseAndReopen) == Some(Closed(e, b).value.Reopen())
  {
    hide Pushed, Closed, Engine.Runs;
  }

  lemma RunNothing(e: Engine, b: ExecutedBlock)
    requires e.Runs()
    ensures Run(e, b, []) == Some(b)
  {
    hide Stepped, Engine.Runs;
  }

  lemma RunOneMore(e: Engine, b: ExecutedBlock, steps: seq<Step>, step: Step)
    requires e.Runs() && Run(e, b, steps).Some?
    ensures Run(e, b, steps + [step]) == Stepped(e, Run(e, b, steps).value, step)
  {
    hide Stepped, Engine.Runs;
    assert (steps + [step])[..|steps|] == steps;
  }

  lemma StepsAre(commits: bool)
    ensures var first, second := PushTransaction(First(commits), None), PushTransaction(Second(commits), None);
            && Steps(commits) == [first, CloseAndReopen, second]
            && NeverClosed(Steps(commits)) == [first, second]
  {
    hide First, Second;
    var s := Steps(commits);
    assert s[..2][..1] == s[..1] && s[..1][..0] == [];
    assert NeverClosed(s[..1]) == [s[0]] && NeverClosed(s[..2]) == [s[0]];
  }

  /** With dust cleaning on, closing and reopening between the two transactions changes the state root of
      the locked block: the closed run spares `POOR`, the other one kills it. */
  lemma ReopeningSparesDust(mode: CleanDustMode, commits: bool)
    requires mode != Off
    ensures var e, steps := EngineOf(mode, commits), Steps(commits);
            && e.Runs() && Run(e, BLOCK, steps).Some? && Run(e, BLOCK, NeverClosed(steps)).Some?
            && var l, l' := Locked(e, Run(e, BLOCK, steps).value), Locked(e, Run(e, BLOCK, NeverClosed(steps)).value);
               && l.Some? && POOR in l.value.state.accounts && l.value.header.derived.stateRoot == 1
               && l'.Some? && POOR !in l'.value.state.accounts && l'.value.header.derived.stateRoot == 0
  {
    hide Pushed, Run, Steps, Closed, EnvOf, EngineOf, Engine.Runs, NeverClosed, Locked;
    EngineRuns(mode, commits);
    var e := EngineOf(mode, commits);
    FirstPush(mode, commits);
    StepsRun(e, commits);
    var b := Pushed(e, BLOCK, First(commits), None).0;
    ReopenForgets(mode, commits, b);
    var b' := Closed(e, b).value.Reopen();
    SecondPush(mode, commits, b);
    SecondPush(mode, commits, b');
    LockedRoot(mode, commits, Run(e, BLOCK, Steps(commits)).value);
    LockedRoot(mode, commits, Run(e, BLOCK, NeverClosed(Steps(commits))).value);
  }

  // ----- when closing and reopening is invisible

  /** A fresh block whose schedule cleans dust as `mode` says, with or without commits between its
      transactions, and with or without creations that leave clean entries behind. */
  ghost predicate Regime(e: Engine, b: ExecutedBlock, mode: CleanDustMode, commits: bool, stale: bool) {
    && e.Runs() && ReadsEssence(e) && b.loaded == map[]
    && (forall info: EnvInfo | info.number == b.header.number :: e.env(info).schedule.killDust == mode)
    && (e.Commits(b.header.number) <==> commits)
    && (!stale ==> KeepsDirty(e))
  }

  ghost predicate AlwaysInvisible(mode: CleanDustMode, commits: bool, stale: bool) {
    forall e: Engine, b: ExecutedBlock, steps: seq<Step> ::
      Regime(e, b, mode, commits, stale) && Run(e, b, steps).Some? ==> Invisible(e, b, steps)
  }

  lemma RegimeIsForgettable(e: Engine, b: ExecutedBlock, mode: CleanDustMode, commits: bool, stale: bool)
    requires Regime(e, b, mode, commits, stale) && (mode == Off || (!commits && !stale))
    ensures e.Runs() && ReadsEssence(e) && Forgettable(e, b, mode != Off)
  {
    hide Engine.Runs, ReadsEssence;
  }

  lemma ExampleIsInRegime(mode: CleanDustMode, commits: bool, stale: bool)
    requires commits || stale
    ensures Regime(EngineOf(mode, commits), BLOCK, mode, commits, stale)
  {
    EngineRuns(mode, commits);
    hide Engine.Runs, EnvOf;
    assert forall info :: EngineOf(mode, commits).env(info) == EnvOf(mode);
    assert EnvOf(mode).schedule.killDust == mode by {
      SameMode(mode);
    }
  }

  lemma SameMode(mode: CleanDustMode)
    ensures EnvOf(mode).schedule.killDust == mode
  {
  }

  /** Closing and reopening is invisible in every run of every fresh block if and only if the block cleans
      no dust, or commits nothing between transactions and keeps every entry it writes dirty. */
  lemma InvisibleIff(mode: CleanDustMode, commits: bool, stale: bool)
    ensures AlwaysInvisible(mode, commits, stale) <==> mode == Off || (!commits && !stale)
  {
    hide Run, Regime, Forgettable, Engine.Runs, ReadsEssence, EngineOf, Locked, Steps, NeverClosed, EnvOf;
    if mode == Off || (!commits && !stale) {
      forall e: Engine, b: ExecutedBlock, steps: seq<Step> | Regime(e, b, mode, commits, stale)
        ensures e.Runs() && (Run(e, b, steps).Some? ==> Invisible(e, b, steps))
      {
        RegimeIsForgettable(e, b, mode, commits, stale);
        if Run(e, b, steps).Some? {
          ReopeningIsInvisible(e, b, steps, mode != Off);
        }
      }
    } else {
      ReopeningSparesDust(mode, commits);
      ExampleIsInRegime(mode, commits, stale);
      assert !Invisible(EngineOf(mode, commits), BLOCK, Steps(commits));
    }
  }
}
