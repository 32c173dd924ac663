/** Block building: pushing transactions and uncles, closing, reopening and locking. */
module BlockBuilding {
  import opened Primitives
  import opened WorldState
  import opened Externalities
  import CallTree
  import opened Transact
  import opened Bits

  // ----- blocks

  type Bloom = set<nat>

  datatype TransactionOutcome = Unknown | StateRoot(root: Hash) | StatusCode(code: nat)

  /** `gasUsed` is cumulative over the block. */
  datatype Receipt = Receipt(outcome: TransactionOutcome, gasUsed: nat, logs: seq<LogEntry>, logBloom: Bloom)

  /** The header fields that closing a block computes. */
  datatype Derived = Derived(
    transactionsRoot: Hash,
    unclesHash: Hash,
    stateRoot: Hash,
    receiptsRoot: Hash,
    logBloom: Bloom,
    gasUsed: nat
  )

  datatype Header = Header(
    parentHash: Hash,
    number: nat,
    author: Address,
    timestamp: nat,
    difficulty: nat,
    gasLimit: nat,
    extraData: Bytes,
    derived: Derived
  )

  type Reward = (Address, U256)

  datatype Trace = TransactionTrace(transaction: Transaction) | RewardTrace(rewards: seq<Reward>)

  datatype Tracing = Enabled(traces: seq<Trace>) | Disabled {
    function Push(trace: Trace): Tracing {
      if Enabled? then Enabled(traces + [trace]) else Disabled
    }
  }

  /** What dust cleaning and cloning read of a cache entry: the balance with which the account was loaded,
      and whether the entry waits for the next commit. */
  datatype Loaded = Loaded(oldBalance: Option<U256>, dirty: bool)

  type LoadedBalances = map<Address, Loaded>

  /** `loaded` holds the entries of the state's cache whose loaded balance may differ from the current one.
      An account without an entry is loaded with the balance it has. */
  datatype ExecutedBlock = ExecutedBlock(
    header: Header,
    transactions: seq<Transaction>,
    uncles: seq<Header>,
    receipts: seq<Receipt>,
    transactionsSet: set<Hash>,
    state: World,
    loaded: LoadedBalances,
    traces: Tracing,
    lastHashes: seq<Hash>
  )

  datatype EnvInfo = EnvInfo(
    number: nat,
    author: Address,
    timestamp: nat,
    difficulty: nat,
    lastHashes: seq<Hash>,
    gasUsed: nat,
    gasLimit: nat
  )

  /** What an engine wants done when a block closes: nothing, or to pay rewards in a state that its reward
      contract may have changed. */
  datatype CloseStep = CloseFailed | NoRewards | Rewards(state: World, rewards: seq<Reward>)

  /** The engine, its machine and the hashing of a chain. `entries` gives the cache entries of a transaction
      that the accounts before and after it do not determine: those of contract creations, reverted or not,
      and those written without a change. */
  datatype Engine = Engine(
    env: EnvInfo -> Env,
    scheme: nat -> CreateContractAddress,
    entries: (EnvInfo, World, LoadedBalances, Transaction) -> LoadedBalances,
    eip658Transition: nat,
    eip98Transition: nat,
    validateReceiptsTransition: nat,
    maximumUncleCount: nat -> nat,
    closeStep: ExecutedBlock -> CloseStep,
    transactionHash: Transaction -> Hash,
    transactionsRoot: seq<Transaction> -> Hash,
    unclesHash: seq<Header> -> Hash,
    receiptsRoot: seq<Receipt> -> Hash,
    stateRoot: Accounts -> Hash,
    logsBloom: seq<LogEntry> -> Bloom
  ) {
    function Context(info: EnvInfo, oldBalance: Address -> Option<U256>): Context {
      Transact.Context(
        env := env(info), author := info.author, gasUsed := info.gasUsed, gasLimit := info.gasLimit,
        scheme := scheme(info.number), outputFromCreate := false, oldBalance := oldBalance)
    }

    /** What the executive asks of the machine: runs end, and finished actions can be settled. */
    ghost predicate Runs() {
      && (forall info :: env(info).Terminating())
      && (forall info, loaded, w, t ::
            Validate(Context(info, loaded), w, t, true).None? ==> Settleable(Context(info, loaded), w, t))
    }

    /** Whether the state is committed after every transaction of the block. */
    predicate Commits(number: nat) {
      number < eip658Transition && (number < eip98Transition || number < validateReceiptsTransition)
    }
  }

  function GasUsed(receipts: seq<Receipt>): nat {
    if receipts == [] then 0 else receipts[|receipts| - 1].gasUsed
  }

  function Info(b: ExecutedBlock): EnvInfo {
    EnvInfo(b.header.number, b.header.author, b.header.timestamp, b.header.difficulty, b.lastHashes,
            GasUsed(b.receipts), b.header.gasLimit)
  }

  // ----- loaded balances

  /** The balance with which an account of `m` is loaded, unless the transaction replaces its entry. */
  function LoadedBalance(l: LoadedBalances, m: Accounts, a: Address): Option<U256> {
    if a in l then l[a].oldBalance else if a in m then Some(m[a].balance) else None
  }

  /** The loaded balances that dust cleaning finds after a transaction that replaced the entries `run`. */
  function OldBalances(run: LoadedBalances, l: LoadedBalances, m: Accounts): Address -> Option<U256> {
    a => if a in run then run[a].oldBalance else LoadedBalance(l, m, a)
  }

  /** The entry of an account that a transaction changed from `m` to `m'`. */
  function EntryAfter(run: LoadedBalances, l: LoadedBalances, m: Accounts, m': Accounts, a: Address): Option<Loaded> {
    if a in m && a !in m' then Some(Loaded(None, true))
    else if a in run then Some(run[a])
    else if Get(m, a) != Get(m', a) then Some(Loaded(LoadedBalance(l, m, a), true))
    else Get(l, a)
  }

  function EntriesAfter(run: LoadedBalances, l: LoadedBalances, m: Accounts, m': Accounts): LoadedBalances {
    map a | a in m.Keys + m'.Keys + l.Keys + run.Keys && EntryAfter(run, l, m, m', a).Some? ::
      EntryAfter(run, l, m, m', a).value
  }

  function EntriesOf(e: Engine, b: ExecutedBlock, t: Transaction): LoadedBalances {
    e.entries(Info(b), b.state, b.loaded, t)
  }

  function ContextOf(e: Engine, b: ExecutedBlock, t: Transaction): Context {
    e.Context(Info(b), OldBalances(EntriesOf(e, b, t), b.loaded, b.state.accounts))
  }

  /** The entries after a transaction of the block that left the accounts `m`. */
  function LoadedAfter(e: Engine, b: ExecutedBlock, t: Transaction, m: Accounts): LoadedBalances {
    EntriesAfter(EntriesOf(e, b, t), b.loaded, b.state.accounts, m)
  }

  /** Committing writes every entry and keeps it. */
  function Flushed(l: LoadedBalances): LoadedBalances {
    map a | a in l :: l[a].(dirty := false)
  }

  /** Cloning a state copies the dirty entries and forgets the others. */
  function ClonedEntries(l: LoadedBalances): LoadedBalances {
    map a | a in l && l[a].dirty :: l[a]
  }

  // ----- pushing

  datatype PushError = AlreadyImported | Execution(error: ExecutionError)

  /** What the engine promises of every block holds of this one. */
  lemma ContextRuns(e: Engine, b: ExecutedBlock, t: Transaction)
    requires e.Runs()
    ensures var c := ContextOf(e, b, t);
            && c.env.Terminating()
            && (Validate(c, b.state, t, true).None? ==>
                 Validate(c, b.state, t, false).None? && Settleable(c, b.state, t))
  {
    hide Settleable, OldBalances, Env.Terminating;
  }

  function Executes(e: Engine, b: ExecutedBlock, t: Transaction): (World, ExecutionResult)
    requires e.Runs()
  {
    ContextRuns(e, b, t);
    match Validate(ContextOf(e, b, t), b.state, t, true)
    case Some(error) => (b.state, Failure(error))
    case None => Applied(ContextOf(e, b, t), b.state, t)
  }

  /** The entries that an execution leaves: those it found if validation refused it. */
  function LoadedBy(e: Engine, b: ExecutedBlock, t: Transaction): LoadedBalances
    requires e.Runs()
  {
    var (w, r) := Executes(e, b, t);
    if Validate(ContextOf(e, b, t), b.state, t, true).Some? then b.loaded
    else
      var l := LoadedAfter(e, b, t, w.accounts);
      if r.Success? && e.Commits(b.header.number) then Flushed(l) else l
  }

  function OutcomeOf(e: Engine, number: nat, w: World, executed: Executed): TransactionOutcome {
    if number >= e.eip658Transition then StatusCode(if executed.exception.Some? then 0 else 1)
    else if number >= e.eip98Transition && number >= e.validateReceiptsTransition then Unknown
    else StateRoot(e.stateRoot(w.accounts))
  }

  function ReceiptOf(e: Engine, number: nat, w: World, executed: Executed): Receipt {
    Receipt(OutcomeOf(e, number, w, executed), executed.cumulativeGasUsed, executed.logs, e.logsBloom(executed.logs))
  }

  /** The block with an executed transaction, its receipt and its trace. */
  function Archived(e: Engine, b: ExecutedBlock, t: Transaction, h: Option<Hash>, executed: Executed): ExecutedBlock {
    b.(
      transactionsSet := b.transactionsSet + {if h.Some? then h.value else e.transactionHash(t)},
      transactions := b.transactions + [t],
      traces := b.traces.Push(TransactionTrace(t)),
      receipts := b.receipts + [ReceiptOf(e, b.header.number, b.state, executed)])
  }

  /** The block after a push, and why the transaction was refused if it was. A transaction that fails
      after validation has already changed the state and its entries. */
  function Pushed(e: Engine, b: ExecutedBlock, t: Transaction, h: Option<Hash>): (ExecutedBlock, Option<PushError>)
    requires e.Runs()
  {
    if e.transactionHash(t) in b.transactionsSet then
      (b, Some(AlreadyImported))
    else
      var (w, r) := Executes(e, b, t);
      match r
      case Failure(error) => (b.(state := w, loaded := LoadedBy(e, b, t)), Some(Execution(error)))
      case Success(executed) => (Archived(e, b.(state := w, loaded := LoadedBy(e, b, t)), t, h, executed), None)
  }

  function PushedAll(e: Engine, b: ExecutedBlock, ts: seq<Transaction>): (ExecutedBlock, Option<PushError>)
    requires e.Runs()
    decreases |ts|
  {
    if ts == [] then (b, None)
    else
      var (b', error) := Pushed(e, b, ts[0], None);
      if error.Some? then (b', error) else PushedAll(e, b', ts[1..])
  }

  function UnclePushed(e: Engine, b: ExecutedBlock, uncle: Header): ExecutedBlock {
    if |b.uncles| + 1 > e.maximumUncleCount(b.header.number) then b else b.(uncles := b.uncles + [uncle])
  }

  // ----- closing

  function PayRewards(w: World, rewards: seq<Reward>): World
    decreases |rewards|
  {
    if rewards == [] then w
    else
      var n := |rewards| - 1;
      PayRewards(w, rewards[..n]).AddBalance(rewards[n].0, rewards[n].1, NoEmpty)
  }

  function Blooms(receipts: seq<Receipt>): Bloom
    decreases |receipts|
  {
    if receipts == [] then {}
    else Blooms(receipts[..|receipts| - 1]) + receipts[|receipts| - 1].logBloom
  }

  function DerivedFields(e: Engine, b: ExecutedBlock): Derived {
    Derived(
      e.transactionsRoot(b.transactions), e.unclesHash(b.uncles), e.stateRoot(b.state.accounts),
      e.receiptsRoot(b.receipts), Blooms(b.receipts), GasUsed(b.receipts))
  }

  function Rewarded(e: Engine, b: ExecutedBlock): Option<ExecutedBlock> {
    match e.closeStep(b)
    case CloseFailed => None
    case NoRewards => Some(b)
    case Rewards(w, rewards) => Some(b.(state := PayRewards(w, rewards), traces := b.traces.Push(RewardTrace(rewards))))
  }

  /** Nothing reads the entries of a locked block. */
  function Locked(e: Engine, b: ExecutedBlock): Option<ExecutedBlock> {
    match Rewarded(e, b)
    case None => None
    case Some(b') => Some(b'.(header := b'.header.(derived := DerivedFields(e, b')), loaded := map[]))
  }

  datatype ClosedBlock = ClosedBlock(block: ExecutedBlock, unclosedState: World, unclosedEntries: LoadedBalances) {
    function Lock(): ExecutedBlock {
      block
    }

    /** The block with the clone of the state it had before it was closed; everything else stays as closing
        left it. */
    function Reopen(): ExecutedBlock {
      block.(state := unclosedState, loaded := unclosedEntries)
    }
  }

  function Closed(e: Engine, b: ExecutedBlock): Option<ClosedBlock> {
    match Locked(e, b)
    case None => None
    case Some(b') => Some(ClosedBlock(b', b.state, ClonedEntries(b.loaded)))
  }

  // ----- runs

  datatype Step = PushTransaction(t: Transaction, h: Option<Hash>) | PushUncle(uncle: Header) | CloseAndReopen

  /** One step; `None` when the engine refuses to close, which destroys the block. */
  function Stepped(e: Engine, b: ExecutedBlock, step: Step): Option<ExecutedBlock>
    requires e.Runs()
  {
    match step
    case PushTransaction(t, h) => Some(Pushed(e, b, t, h).0)
    case PushUncle(uncle) => Some(UnclePushed(e, b, uncle))
    case CloseAndReopen =>
      match Closed(e, b)
      case None => None
      case Some(c) => Some(c.Reopen())
  }

  function Run(e: Engine, b: ExecutedBlock, steps: seq<Step>): Option<ExecutedBlock>
    requires e.Runs()
    decreases |steps|
  {
    if steps == [] then Some(b)
    else
      match Run(e, b, steps[..|steps| - 1])
      case None => None
      case Some(b') => Stepped(e, b', steps[|steps| - 1])
  }

  /** The same run without the closing and reopening. */
  function NeverClosed(steps: seq<Step>): seq<Step>
    decreases |steps|
  {
    if steps == [] then []
    else
      var n := |steps| - 1;
      NeverClosed(steps[..n]) + if steps[n].CloseAndReopen? then [] else [steps[n]]
  }

  // ----- refused pushes

  /** A push refused for its hash or by validation leaves the block alone. One refused later changes the
      state with its entries and nothing else: the overflow error leaves what the action did, an internal
      error leaves it settled. */
  lemma RefusedPush(e: Engine, b: ExecutedBlock, t: Transaction, h: Option<Hash>)
    requires e.Runs() && Pushed(e, b, t, h).1.Some?
    ensures var (b', error), c := Pushed(e, b, t, h), ContextOf(e, b, t);
            if e.transactionHash(t) in b.transactionsSet then error.value == AlreadyImported && b' == b
            else if Validate(c, b.state, t, true).Some? then
              error.value == Execution(Validate(c, b.state, t, true).value) && b' == b
            else if SettlementOf(c, b.state, t).Overflows() then
              var w := Perform(c, b.state, t).world;
              && error.value == Execution(TransactionMalformed)
              && b' == b.(state := w, loaded := LoadedAfter(e, b, t, w.accounts))
            else
              var o := Perform(c, b.state, t);
              var w := AfterSettlement(c, o.world, t, o.substate, SettlementOf(c, b.state, t));
              && error.value == Execution(InternalError) && o.result == Err(Internal)
              && b' == b.(state := w, loaded := LoadedAfter(e, b, t, w.accounts))
  {
    hide Perform, Applied, AfterSettlement, Cost, LoadedAfter, ContextOf, Flushed;
    var c := ContextOf(e, b, t);
    ContextRuns(e, b, t);
    if e.transactionHash(t) !in b.transactionsSet && Validate(c, b.state, t, true).None? {
      RefusedLate(c, b.state, t);
    }
  }

  /** The transaction is valid, and the machine fails on it with an internal error. */
  ghost predicate FailsInternally(e: Engine, b: ExecutedBlock, t: Transaction)
    requires e.Runs()
  {
    ContextRuns(e, b, t);
    var c := ContextOf(e, b, t);
    Validate(c, b.state, t, true).None? && Perform(c, b.state, t).result == Err(Internal)
  }

  /** For public input only an internal error of the machine can refuse a transaction after validation. */
  lemma PublicPushRefusal(e: Engine, b: ExecutedBlock, t: Transaction, h: Option<Hash>)
    requires e.Runs() && !t.action.IsInputPrivate()
    ensures var (b', error) := Pushed(e, b, t, h);
            error.Some? && b' != b ==> error == Some(Execution(InternalError)) && FailsInternally(e, b, t)
  {
    hide Perform, Pushed, Settle, AfterSettlement, LoadedAfter, ContextOf, Engine.Runs;
    if Pushed(e, b, t, h).1.Some? {
      RefusedPush(e, b, t, h);
    }
    var c := ContextOf(e, b, t);
    ContextRuns(e, b, t);
    if e.transactionHash(t) !in b.transactionsSet && Validate(c, b.state, t, true).None? {
      OverflowNeedsPrivateInput(c, b.state, t);
    }
  }

  // ----- closing and reopening

  const NO_DERIVED := Derived(0, 0, 0, 0, {}, 0)

  /** A block without the computed header fields, without its traces and, unless `dust` matters, without
      its loaded balances. */
  function Essence(b: ExecutedBlock, dust: bool): ExecutedBlock {
    b.(header := b.header.(derived := NO_DERIVED), traces := Disabled, loaded := if dust then b.loaded else map[])
  }

  /** The engine's close step reads no computed header field, no trace and no loaded balance. */
  ghost predicate ReadsEssence(e: Engine) {
    forall b :: e.closeStep(b) == e.closeStep(Essence(b, false))
  }

  /** Blocks of this number do not clean dust. */
  ghost predicate DustOff(e: Engine, number: nat) {
    forall info: EnvInfo | info.number == number :: e.env(info).schedule.killDust == Off
  }

  predicate AllDirty(l: LoadedBalances) {
    forall a | a in l :: l[a].dirty
  }

  /** No transaction leaves an entry that a clone would forget. */
  ghost predicate KeepsDirty(e: Engine) {
    forall info, w, l, t :: AllDirty(e.entries(info, w, l, t))
  }

  /** Nothing that a clone forgets can matter: dust is not cleaned, or nothing is ever forgotten. */
  ghost predicate Forgettable(e: Engine, b: ExecutedBlock, dust: bool) {
    if dust then !e.Commits(b.header.number) && KeepsDirty(e) && AllDirty(b.loaded)
    else DustOff(e, b.header.number)
  }

  /** The number of reward traces that the closings of a run leave behind. */
  function RewardTraces(e: Engine, b: ExecutedBlock, steps: seq<Step>): nat
    requires e.Runs()
    decreases |steps|
  {
    if steps == [] then 0
    else
      var n := |steps| - 1;
      RewardTraces(e, b, steps[..n]) +
      match Run(e, b, steps[..n])
      case None => 0
      case Some(b') => if steps[n].CloseAndReopen? && e.closeStep(b').Rewards? then 1 else 0
  }

  lemma SameContext(e: Engine, b: ExecutedBlock, b': ExecutedBlock, t: Transaction)
    requires Essence(b, true) == Essence(b', true)
    ensures ContextOf(e, b, t) == ContextOf(e, b', t)
    ensures EntriesOf(e, b, t) == EntriesOf(e, b', t)
  {
    assert Info(b) == Info(b');
  }

  lemma ExecutesReadsEssence(e: Engine, b: ExecutedBlock, b': ExecutedBlock, t: Transaction, dust: bool)
    requires e.Runs() && Essence(b, dust) == Essence(b', dust)
    requires dust || DustOff(e, b.header.number)
    ensures Executes(e, b, t) == Executes(e, b', t)
    ensures dust ==> LoadedBy(e, b, t) == LoadedBy(e, b', t)
  {
    hide Applied, Validate, Settleable, EntriesAfter, EntriesOf, OldBalances, Engine.Runs;
    ContextRuns(e, b, t);
    ContextRuns(e, b', t);
    if dust {
      SameContext(e, b, b', t);
    } else {
      assert Info(b) == Info(b');
      var c, c' := ContextOf(e, b, t), ContextOf(e, b', t);
      assert c' == c.(oldBalance := c'.oldBalance);
      ValidateIgnoresLoaded(c, c', b.state, t, true);
      if Validate(c, b.state, t, true).None? {
        AppliedIgnoresLoaded(c, c', b.state, t);
      }
    }
  }

  lemma PushReadsEssence(e: Engine, b: ExecutedBlock, b': ExecutedBlock, t: Transaction, h: Option<Hash>, dust: bool)
    requires e.Runs() && Essence(b, dust) == Essence(b', dust)
    requires dust || DustOff(e, b.header.number)
    ensures Essence(Pushed(e, b, t, h).0, dust) == Essence(Pushed(e, b', t, h).0, dust)
    ensures Pushed(e, b, t, h).1 == Pushed(e, b', t, h).1
    ensures Pushed(e, b, t, h).0.header == b.header
  {
    hide Executes, LoadedBy, DustOff;
    ExecutesReadsEssence(e, b, b', t, dust);
  }

  /** Reopening brings back everything but the computed header fields, the reward trace and the loaded
      balances of the entries that are not dirty. */
  lemma ReopenKeepsEssence(e: Engine, b: ExecutedBlock, dust: bool)
    requires Closed(e, b).Some? && (dust ==> AllDirty(b.loaded))
    ensures var b' := Closed(e, b).value.Reopen();
            && Essence(b', dust) == Essence(b, dust)
            && (forall a :: Get(b'.loaded, a) ==
                            if a in b.loaded && b.loaded[a].dirty then Some(b.loaded[a]) else None)
            && b'.traces ==
               if e.closeStep(b).Rewards? then b.traces.Push(RewardTrace(e.closeStep(b).rewards)) else b.traces
  {
    assert AllDirty(b.loaded) ==> ClonedEntries(b.loaded) == b.loaded;
  }

  lemma StepReadsEssence(e: Engine, b: ExecutedBlock, b': ExecutedBlock, step: Step, dust: bool)
    requires e.Runs() && Essence(b, dust) == Essence(b', dust) && !step.CloseAndReopen?
    requires dust || DustOff(e, b.header.number)
    ensures Stepped(e, b, step).Some? && Stepped(e, b', step).Some?
    ensures Essence(Stepped(e, b, step).value, dust) == Essence(Stepped(e, b', step).value, dust)
  {
    hide Pushed, DustOff;
    if step.PushTransaction? {
      PushReadsEssence(e, b, b', step.t, step.h, dust);
    }
  }

  lemma PushKeepsDirty(e: Engine, b: ExecutedBlock, t: Transaction, h: Option<Hash>)
    requires e.Runs() && Forgettable(e, b, true)
    ensures AllDirty(Pushed(e, b, t, h).0.loaded)
  {
    hide Executes, ContextOf;
    assert AllDirty(EntriesOf(e, b, t));
    assert forall m :: AllDirty(LoadedAfter(e, b, t, m));
  }

  /** Every step keeps the number of the block, and so what a clone may forget. */
  lemma StepKeepsForgettable(e: Engine, b: ExecutedBlock, step: Step, dust: bool)
    requires e.Runs() && Forgettable(e, b, dust) && Stepped(e, b, step).Some?
    ensures Forgettable(e, Stepped(e, b, step).value, dust)
  {
    hide Executes, LoadedBy, KeepsDirty, DustOff, Engine.Commits;
    if dust && step.PushTransaction? {
      PushKeepsDirty(e, b, step.t, step.h);
    }
  }

  /** Locking computes the same header and state from blocks with the same essence. */
  lemma LockReadsEssence(e: Engine, b: ExecutedBlock, b': ExecutedBlock, dust: bool)
    requires ReadsEssence(e) && Essence(b, dust) == Essence(b', dust)
    ensures Locked(e, b).Some? <==> Locked(e, b').Some?
    ensures Locked(e, b).Some? ==> Locked(e, b).value.(traces := Disabled) == Locked(e, b').value.(traces := Disabled)
  {
    SameCloseStep(e, b, b', dust);
  }

  lemma SameCloseStep(e: Engine, b: ExecutedBlock, b': ExecutedBlock, dust: bool)
    requires ReadsEssence(e) && Essence(b, dust) == Essence(b', dust)
    ensures e.closeStep(b) == e.closeStep(b')
  {
    assert Essence(b, false) == Essence(Essence(b, dust), false) == Essence(b', false);
    assert e.closeStep(b) == e.closeStep(Essence(b, false)) == e.closeStep(b');
  }

  lemma RunLast(e: Engine, b: ExecutedBlock, steps: seq<Step>)
    requires e.Runs() && steps != [] && Run(e, b, steps).Some?
    ensures var n := |steps| - 1;
            var b' := Run(e, b, steps[..n]);
            && b'.Some? && Run(e, b, steps) == Stepped(e, b'.value, steps[n])
            && RewardTraces(e, b, steps) == RewardTraces(e, b, steps[..n]) +
               if steps[n].CloseAndReopen? && e.closeStep(b'.value).Rewards? then 1 else 0
  {
    hide Stepped, Pushed;
  }

  lemma CloseStepIs(e: Engine, b: ExecutedBlock)
    requires e.Runs() && Stepped(e, b, CloseAndReopen).Some?
    ensures Closed(e, b).Some? && Stepped(e, b, CloseAndReopen).value == Closed(e, b).value.Reopen()
  {
  }

  lemma LastOfNeverClosed(e: Engine, b: ExecutedBlock, steps: seq<Step>)
    requires e.Runs() && steps != [] && Run(e, b, NeverClosed(steps[..|steps| - 1])).Some?
    ensures var n := |steps| - 1;
            var b' := Run(e, b, NeverClosed(steps[..n]));
            Run(e, b, NeverClosed(steps)) == if steps[n].CloseAndReopen? then b' else Stepped(e, b'.value, steps[n])
  {
    hide Stepped;
    var n, r := |steps| - 1, NeverClosed(steps);
    if steps[n].CloseAndReopen? {
      assert r == NeverClosed(steps[..n]);
    } else {
      assert r[..|r| - 1] == NeverClosed(steps[..n]) && r[|r| - 1] == steps[n];
    }
  }

  lemma ForgettableMeans(e: Engine, b: ExecutedBlock, dust: bool)
    requires Forgettable(e, b, dust)
    ensures dust || DustOff(e, b.header.number)
    ensures dust ==> AllDirty(b.loaded)
  {
  }

  lemma {:induction false} RunKeepsForgettable(e: Engine, b: ExecutedBlock, steps: seq<Step>, dust: bool)
    requires e.Runs() && Forgettable(e, b, dust) && Run(e, b, steps).Some?
    ensures Forgettable(e, Run(e, b, steps).value, dust)
    decreases |steps|
  {
    if steps == [] {
      hide Pushed, Forgettable;
    } else {
      hide *;
      RunLast(e, b, steps);
      var n := |steps| - 1;
      RunKeepsForgettable(e, b, steps[..n], dust);
      StepKeepsForgettable(e, Run(e, b, steps[..n]).value, steps[n], dust);
    }
  }

  /** No transaction replaces an entry. */
  ghost predicate NoCreations(e: Engine) {
    forall info, w, l, t :: e.entries(info, w, l, t) == map[]
  }

  /** The account exists before and after every step of the run. */
  ghost predicate Lives(e: Engine, b: ExecutedBlock, steps: seq<Step>, a: Address)
    requires e.Runs()
    decreases |steps|
  {
    && (steps != [] ==> Lives(e, b, steps[..|steps| - 1], a))
    && Run(e, b, steps).Some? && a in Run(e, b, steps).value.state.accounts
  }

  lemma EntryRemembers(l: LoadedBalances, m: Accounts, m': Accounts, a: Address)
    requires a in m && a in m'
    ensures LoadedBalance(EntriesAfter(map[], l, m, m'), m', a) == LoadedBalance(l, m, a)
    ensures LoadedBalance(Flushed(EntriesAfter(map[], l, m, m')), m', a) == LoadedBalance(l, m, a)
  {
  }

  lemma RefusedKeepsState(e: Engine, b: ExecutedBlock, t: Transaction)
    requires e.Runs()
    ensures Validate(ContextOf(e, b, t), b.state, t, true).Some? ==> Executes(e, b, t).0 == b.state
  {
    hide Applied, Validate, ContextOf;
  }

  lemma StepRemembers(e: Engine, b: ExecutedBlock, step: Step, a: Address)
    requires e.Runs() && NoCreations(e) && (step.CloseAndReopen? ==> AllDirty(b.loaded))
    requires Stepped(e, b, step).Some?
    requires a in b.state.accounts && a in Stepped(e, b, step).value.state.accounts
    ensures var b' := Stepped(e, b, step).value;
            LoadedBalance(b'.loaded, b'.state.accounts, a) == LoadedBalance(b.loaded, b.state.accounts, a)
  {
    hide Executes, ContextOf, EntriesAfter, Flushed, LoadedBalance;
    match step
    case PushTransaction(t, h) =>
      assert EntriesOf(e, b, t) == map[];
      var m := Executes(e, b, t).0.accounts;
      if a in m {
        EntryRemembers(b.loaded, b.state.accounts, m, a);
        RefusedKeepsState(e, b, t);
        assert LoadedBalance(LoadedBy(e, b, t), m, a) == LoadedBalance(b.loaded, b.state.accounts, a);
      }
      hide LoadedBy;
    case PushUncle(_) =>
    case CloseAndReopen => ReopenKeepsEssence(e, b, true);
  }

  /** As long as an account lives, dust cleaning compares its balance with the one it had at the start of the
      run, however often it was written since, if no entry is replaced, and none is forgotten. */
  lemma {:induction false} RunRemembers(e: Engine, b: ExecutedBlock, steps: seq<Step>, a: Address)
    requires e.Runs() && NoCreations(e) && b.loaded == map[] && Lives(e, b, steps, a)
    requires Forgettable(e, b, true) || CloseAndReopen !in steps
    ensures a in b.state.accounts
    ensures var b' := Run(e, b, steps).value;
            LoadedBalance(b'.loaded, b'.state.accounts, a) == Some(b.state.accounts[a].balance)
    decreases |steps|
  {
    StartLives(e, b, steps, a);
    if steps == [] {
      hide Stepped;
    } else {
      var n := |steps| - 1;
      hide Stepped, Run, Forgettable, NoCreations, LoadedBalance;
      RunRemembers(e, b, steps[..n], a);
      RunLast(e, b, steps);
      var b' := Run(e, b, steps[..n]).value;
      if Forgettable(e, b, true) {
        RunKeepsForgettable(e, b, steps[..n], true);
        ForgettableMeans(e, b', true);
      }
      LivesLast(e, b, steps, a);
      StepRemembers(e, b', steps[n], a);
    }
  }

  lemma LivesLast(e: Engine, b: ExecutedBlock, steps: seq<Step>, a: Address)
    requires e.Runs() && Lives(e, b, steps, a)
    ensures Run(e, b, steps).Some? && a in Run(e, b, steps).value.state.accounts
    ensures steps != [] ==>
              var before := Run(e, b, steps[..|steps| - 1]); before.Some? && a in before.value.state.accounts
  {
    hide Run;
  }

  lemma {:induction false} StartLives(e: Engine, b: ExecutedBlock, steps: seq<Step>, a: Address)
    requires e.Runs() && Lives(e, b, steps, a)
    ensures a in b.state.accounts
    decreases |steps|
  {
    if steps == [] {
      hide Stepped;
    } else {
      hide Run;
      StartLives(e, b, steps[..|steps| - 1], a);
    }
  }

  /** A run that closes and reopens agrees with one that does not, on everything but the computed header
      fields, the traces and, with dust cleaning off, the loaded balances. */
  lemma {:induction false} RunEssence(e: Engine, b: ExecutedBlock, steps: seq<Step>, dust: bool)
    requires e.Runs() && Forgettable(e, b, dust) && Run(e, b, steps).Some?
    ensures Run(e, b, NeverClosed(steps)).Some?
    ensures Essence(Run(e, b, steps).value, dust) == Essence(Run(e, b, NeverClosed(steps)).value, dust)
    decreases |steps|
  {
    if steps == [] {
      hide Pushed, Forgettable;
    } else {
      hide *;
      var n := |steps| - 1;
      RunLast(e, b, steps);
      RunEssence(e, b, steps[..n], dust);
      LastOfNeverClosed(e, b, steps);
      var b1, b2 := Run(e, b, steps[..n]).value, Run(e, b, NeverClosed(steps[..n])).value;
      RunKeepsForgettable(e, b, steps[..n], dust);
      ForgettableMeans(e, b1, dust);
      if steps[n].CloseAndReopen? {
        CloseStepIs(e, b1);
        ReopenKeepsEssence(e, b1, dust);
      } else {
        StepReadsEssence(e, b1, b2, steps[n], dust);
      }
    }
  }

  /** The traces of two runs differ by exactly the reward traces of the closings. */
  ghost predicate TracesDiffer(with: Tracing, without: Tracing, extra: nat) {
    && (with.Disabled? <==> without.Disabled?)
    && (with.Enabled? ==> |with.traces| == |without.traces| + extra && (extra == 0 ==> with == without))
  }

  lemma PushTraces(e: Engine, b: ExecutedBlock, b': ExecutedBlock, step: Step, extra: nat, dust: bool)
    requires e.Runs() && Essence(b, dust) == Essence(b', dust) && !step.CloseAndReopen?
    requires dust || DustOff(e, b.header.number)
    requires TracesDiffer(b.traces, b'.traces, extra)
    ensures Stepped(e, b, step).Some? && Stepped(e, b', step).Some?
    ensures TracesDiffer(Stepped(e, b, step).value.traces, Stepped(e, b', step).value.traces, extra)
  {
    hide Executes, LoadedBy, DustOff;
    if step.PushTransaction? {
      PushReadsEssence(e, b, b', step.t, step.h, dust);
    }
  }

  lemma ReopenTraces(e: Engine, b: ExecutedBlock, without: Tracing, extra: nat)
    requires Closed(e, b).Some? && TracesDiffer(b.traces, without, extra)
    ensures TracesDiffer(Closed(e, b).value.Reopen().traces, without, extra + if e.closeStep(b).Rewards? then 1 else 0)
  {
  }

  lemma {:induction false} RunTraces(e: Engine, b: ExecutedBlock, steps: seq<Step>, dust: bool)
    requires e.Runs() && Forgettable(e, b, dust)
    requires Run(e, b, steps).Some? && Run(e, b, NeverClosed(steps)).Some?
    ensures TracesDiffer(Run(e, b, steps).value.traces, Run(e, b, NeverClosed(steps)).value.traces,
                         RewardTraces(e, b, steps))
    decreases |steps|
  {
    if steps == [] {
      hide Pushed, Forgettable;
    } else {
      hide *;
      var n := |steps| - 1;
      RunLast(e, b, steps);
      RunEssence(e, b, steps[..n], dust);
      RunTraces(e, b, steps[..n], dust);
      LastOfNeverClosed(e, b, steps);
      var b1, b2 := Run(e, b, steps[..n]).value, Run(e, b, NeverClosed(steps[..n])).value;
      RunKeepsForgettable(e, b, steps[..n], dust);
      ForgettableMeans(e, b1, dust);
      if steps[n].CloseAndReopen? {
        CloseStepIs(e, b1);
        ReopenTraces(e, b1, b2.traces, RewardTraces(e, b, steps[..n]));
      } else {
        PushTraces(e, b1, b2, steps[n], RewardTraces(e, b, steps[..n]), dust);
      }
    }
  }

  /** Locking after the run gives what locking after the run without closings gives: the header,
      transactions, receipts, uncles and state agree. */
  ghost predicate Invisible(e: Engine, b: ExecutedBlock, steps: seq<Step>)
    requires e.Runs() && Run(e, b, steps).Some?
  {
    && Run(e, b, NeverClosed(steps)).Some?
    && var l, l' := Locked(e, Run(e, b, steps).value), Locked(e, Run(e, b, NeverClosed(steps)).value);
       && (l.Some? <==> l'.Some?)
       && (l.Some? ==> l.value.(traces := Disabled) == l'.value.(traces := Disabled))
  }

  /** Closing and reopening between pushes is invisible when the block does not clean dust, or when it
      neither commits between transactions nor ever holds an entry that a clone forgets. The traces agree
      too if and only if tracing is off or no closing pays rewards, because reopening does not take reward
      traces back. */
  lemma ReopeningIsInvisible(e: Engine, b: ExecutedBlock, steps: seq<Step>, dust: bool)
    requires e.Runs() && ReadsEssence(e) && Forgettable(e, b, dust) && Run(e, b, steps).Some?
    ensures Invisible(e, b, steps)
    ensures var l, l' := Locked(e, Run(e, b, steps).value), Locked(e, Run(e, b, NeverClosed(steps)).value);
            l.Some? ==> (l == l' <==> Run(e, b, steps).value.traces.Disabled? || RewardTraces(e, b, steps) == 0)
  {
    hide Run, RewardTraces, Essence, Forgettable, NeverClosed;
    RunEssence(e, b, steps, dust);
    RunTraces(e, b, steps, dust);
    var b1, b2 := Run(e, b, steps).value, Run(e, b, NeverClosed(steps)).value;
    LockReadsEssence(e, b1, b2, dust);
    if Locked(e, b1).Some? {
      LockedTraces(e, b1, b2, dust);
    }
  }

  lemma LockedTraces(e: Engine, b: ExecutedBlock, b': ExecutedBlock, dust: bool)
    requires ReadsEssence(e) && Essence(b, dust) == Essence(b', dust) && Locked(e, b).Some? && Locked(e, b').Some?
    ensures Locked(e, b).value.traces == Locked(e, b').value.traces <==> b.traces == b'.traces
  {
    SameCloseStep(e, b, b', dust);
    if b.traces.Enabled? && b'.traces.Enabled? && e.closeStep(b).Rewards? {
      SameBeforeLast(b.traces.traces, b'.traces.traces, RewardTrace(e.closeStep(b).rewards));
    }
  }

  lemma SameBeforeLast(x: seq<Trace>, y: seq<Trace>, last: Trace)
    ensures x + [last] == y + [last] <==> x == y
  {
    assert x == (x + [last])[..|x|] && y == (y + [last])[..|y|];
  }

  // ----- gas and identity of the transactions

  /** The virtual machine meters gas, and every transaction has to bring at least `base`. */
  ghost predicate Metered(e: Engine, base: nat) {
    && base > 0
    && (forall info :: CallTree.GasMetered(e.env(info)))
    && (forall info :: base <= e.env(info).schedule.txGas && base <= e.env(info).schedule.txCreateGas)
  }

  /** Receipt gas grows strictly, stays within the limit, and pays at least half the base gas each time. */
  ghost predicate GasOrdered(b: ExecutedBlock, base: nat) {
    && (forall i, j | 0 <= i < j < |b.receipts| :: b.receipts[i].gasUsed < b.receipts[j].gasUsed)
    && (forall i | 0 <= i < |b.receipts| :: b.receipts[i].gasUsed <= b.header.gasLimit)
    && Halves(|b.receipts|, base) <= GasUsed(b.receipts)
    && |b.transactions| == |b.receipts|
  }

  /** `n` times half of the base gas, rounded up. */
  function Halves(n: nat, base: nat): nat {
    n * ((base + 1) / 2)
  }

  lemma HalvesStep(n: nat, base: nat)
    ensures Halves(n + 1, base) == Halves(n, base) + (base + 1) / 2
  {
  }

  lemma ReceiptGas(e: Engine, b: ExecutedBlock, t: Transaction, base: nat)
    requires e.Runs() && Metered(e, base)
    ensures var r := Executes(e, b, t).1;
            r.Success? ==>
              GasUsed(b.receipts) + (base + 1) / 2 <= r.executed.cumulativeGasUsed <= b.header.gasLimit
  {
    hide Applied, DataGas, OldBalances;
    ContextRuns(e, b, t);
    if Executes(e, b, t).1.Success? {
      GasUsedBounds(ContextOf(e, b, t), b.state, t);
    }
  }

  /** A push leaves the lists alone or appends to both of them. */
  lemma PushAppends(e: Engine, b: ExecutedBlock, t: Transaction, h: Option<Hash>)
    requires e.Runs()
    ensures var b' := Pushed(e, b, t, h).0;
            && b'.header == b.header
            && if Pushed(e, b, t, h).1.Some? then b'.receipts == b.receipts && b'.transactions == b.transactions
               else
                 var r := Executes(e, b, t).1;
                 && r.Success? && b'.transactions == b.transactions + [t]
                 && |b'.receipts| == |b.receipts| + 1 && b'.receipts[..|b.receipts|] == b.receipts
                 && b'.receipts[|b.receipts|].gasUsed == r.executed.cumulativeGasUsed
  {
    hide Executes, LoadedBy;
  }

  lemma ReceiptKeepsOrder(b: ExecutedBlock, b': ExecutedBlock, base: nat)
    requires base > 0 && GasOrdered(b, base)
    requires b'.header == b.header && |b'.transactions| == |b.transactions| + 1
    requires |b'.receipts| == |b.receipts| + 1 && b'.receipts[..|b.receipts|] == b.receipts
    requires GasUsed(b.receipts) + (base + 1) / 2 <= b'.receipts[|b.receipts|].gasUsed <= b.header.gasLimit
    ensures GasOrdered(b', base)
  {
    hide Halves;
    HalvesStep(|b.receipts|, base);
    var n := |b.receipts|;
    assert forall i | 0 <= i < n :: b'.receipts[i] == b.receipts[i];
    forall i | 0 <= i < n
      ensures b'.receipts[i].gasUsed < b'.receipts[n].gasUsed
    {
      assert b.receipts[i].gasUsed <= GasUsed(b.receipts);
    }
  }

  lemma PushKeepsGas(e: Engine, b: ExecutedBlock, t: Transaction, h: Option<Hash>, base: nat)
    requires e.Runs() && Metered(e, base) && GasOrdered(b, base)
    ensures GasOrdered(Pushed(e, b, t, h).0, base)
  {
    hide Pushed, Executes, Halves, Engine.Runs;
    PushAppends(e, b, t, h);
    if Pushed(e, b, t, h).1.None? {
      ReceiptGas(e, b, t, base);
      ReceiptKeepsOrder(b, Pushed(e, b, t, h).0, base);
    }
  }

  lemma StepKeepsGas(e: Engine, b: ExecutedBlock, step: Step, base: nat)
    requires e.Runs() && Metered(e, base) && GasOrdered(b, base) && Stepped(e, b, step).Some?
    ensures GasOrdered(Stepped(e, b, step).value, base)
    ensures Stepped(e, b, step).value.header.gasLimit == b.header.gasLimit
  {
    hide Pushed, Halves, Metered, Engine.Runs, Blooms, PayRewards;
    if step.PushTransaction? {
      PushKeepsGas(e, b, step.t, step.h, base);
      PushAppends(e, b, step.t, step.h);
    }
  }

  lemma {:induction false} RunKeepsGas(e: Engine, b: ExecutedBlock, steps: seq<Step>, base: nat)
    requires e.Runs() && Metered(e, base) && GasOrdered(b, base) && Run(e, b, steps).Some?
    ensures GasOrdered(Run(e, b, steps).value, base)
    ensures Run(e, b, steps).value.header.gasLimit == b.header.gasLimit
    decreases |steps|
  {
    if steps == [] {
      hide Executes, Halves, Metered;
    } else {
      hide *;
      RunLast(e, b, steps);
      var n := |steps| - 1;
      RunKeepsGas(e, b, steps[..n], base);
      StepKeepsGas(e, Run(e, b, steps[..n]).value, steps[n], base);
    }
  }

  /** However a fresh block is filled, closed and reopened: the receipts' gas is strictly increasing and
      within the limit, and the limit bounds the number of transactions. */
  lemma GasBoundsTransactions(e: Engine, b: ExecutedBlock, steps: seq<Step>, base: nat)
    requires e.Runs() && Metered(e, base) && Run(e, b, steps).Some?
    requires b.receipts == [] && b.transactions == []
    ensures base > 0
    ensures var b' := Run(e, b, steps).value;
            && GasOrdered(b', base)
            && |b'.transactions| <= b.header.gasLimit / ((base + 1) / 2)
  {
    assert base > 0;
    hide Executes, Metered, Run;
    assert Halves(0, base) == 0;
    RunKeepsGas(e, b, steps, base);
    var b' := Run(e, b, steps).value;
    QuotientBounds(|b'.receipts|, (base + 1) / 2, b.header.gasLimit);
  }

  lemma QuotientBounds(n: nat, d: nat, x: nat)
    requires d > 0 && n * d <= x
    ensures n <= x / d
  {
    assert x < d * (x / d + 1);
    if x / d < n {
      MulMonotone(d, x / d + 1, n);
    }
  }

  /** Transactions come with their own hash, if with any. */
  ghost predicate Honest(e: Engine, steps: seq<Step>) {
    forall i | 0 <= i < |steps| && steps[i].PushTransaction? && steps[i].h.Some? ::
      steps[i].h.value == e.transactionHash(steps[i].t)
  }

  /** No transaction hash occurs twice, and the set of hashes is that of the transactions. */
  ghost predicate Unique(e: Engine, b: ExecutedBlock) {
    && (forall i, j | 0 <= i < j < |b.transactions| ::
          e.transactionHash(b.transactions[i]) != e.transactionHash(b.transactions[j]))
    && (forall i | 0 <= i < |b.transactions| :: e.transactionHash(b.transactions[i]) in b.transactionsSet)
    && (forall h | h in b.transactionsSet ::
          exists i | 0 <= i < |b.transactions| :: e.transactionHash(b.transactions[i]) == h)
  }

  lemma StepKeepsUnique(e: Engine, b: ExecutedBlock, step: Step)
    requires e.Runs() && Honest(e, [step]) && Unique(e, b) && Stepped(e, b, step).Some?
    ensures Unique(e, Stepped(e, b, step).value)
  {
    hide Executes, LoadedBy;
    assert step == [step][0];
    var b' := Stepped(e, b, step).value;
    if b'.transactions != b.transactions {
      assert b'.transactions == b.transactions + [step.t];
      assert forall i | 0 <= i < |b.transactions| :: b'.transactions[i] == b.transactions[i];
      assert b'.transactions[|b.transactions|] == step.t;
    }
  }

  /** A block never holds a transaction twice, and refuses exactly the ones it holds. */
  lemma {:induction false} RunKeepsUnique(e: Engine, b: ExecutedBlock, steps: seq<Step>)
    requires e.Runs() && Honest(e, steps) && Unique(e, b) && Run(e, b, steps).Some?
    ensures Unique(e, Run(e, b, steps).value)
    decreases |steps|
  {
    if steps == [] {
      hide Executes, Unique;
    } else {
      var n := |steps| - 1;
      assert Honest(e, steps[..n]) && Honest(e, [steps[n]]);
      hide *;
      RunLast(e, b, steps);
      RunKeepsUnique(e, b, steps[..n]);
      StepKeepsUnique(e, Run(e, b, steps[..n]).value, steps[n]);
    }
  }

  /** Reward contracts close the checkpoints they open. */
  ghost predicate RewardsBalanced(e: Engine) {
    forall b :: e.closeStep(b).Rewards? ==> e.closeStep(b).state.snapshots == b.state.snapshots
  }

  /** Committing finds no open checkpoint, at every point of every run. */
  lemma {:induction false} RunKeepsCheckpoints(e: Engine, b: ExecutedBlock, steps: seq<Step>)
    requires e.Runs() && Run(e, b, steps).Some?
    ensures Run(e, b, steps).value.state.snapshots == b.state.snapshots
    decreases |steps|
  {
    if steps == [] {
      hide Executes;
    } else {
      hide *;
      RunLast(e, b, steps);
      var n := |steps| - 1;
      RunKeepsCheckpoints(e, b, steps[..n]);
      StepKeepsCheckpoints(e, Run(e, b, steps[..n]).value, steps[n]);
    }
  }

  lemma StepKeepsCheckpoints(e: Engine, b: ExecutedBlock, step: Step)
    requires e.Runs() && Stepped(e, b, step).Some?
    ensures Stepped(e, b, step).value.state.snapshots == b.state.snapshots
  {
    hide Applied, LoadedBy, ContextOf;
    if step.PushTransaction? {
      ContextRuns(e, b, step.t);
    }
    if step.PushTransaction? && Validate(ContextOf(e, b, step.t), b.state, step.t, true).None? {
      AppliedKeepsCheckpoints(ContextOf(e, b, step.t), b.state, step.t);
    }
  }

  lemma {:induction false} PayRewardsKeepsCheckpoints(w: World, rewards: seq<Reward>)
    ensures PayRewards(w, rewards).snapshots == w.snapshots
    decreases |rewards|
  {
    if rewards != [] {
      PayRewardsKeepsCheckpoints(w, rewards[..|rewards| - 1]);
    }
  }

  // ----- building in place

  class OpenBlock {
    var block: ExecutedBlock
    const engine: Engine

    constructor (e: Engine, b: ExecutedBlock)
      ensures engine == e && block == b
    {
      engine := e;
      block := b;
    }

    /** Executes a transaction and archives it with its receipt and trace. */
    method Push(t: Transaction, h: Option<Hash>) returns (error: Option<PushError>)
      requires engine.Runs()
      modifies this
      ensures (block, error) == Pushed(engine, old(block), t, h)
    {
      hide Applied, Validate, Perform, LoadedBy, ContextOf;
      if engine.transactionHash(t) in block.transactionsSet {
        return Some(AlreadyImported);
      }
      ContextRuns(engine, block, t);
      var executor := new TransactionExecutor(block.state);
      var r := executor.TransactWithTracer(ContextOf(engine, block, t), t, true);
      block := block.(state := executor.world, loaded := LoadedBy(engine, block, t));
      if r.Failure? {
        return Some(Execution(r.error));
      }
      var outcome := OutcomeOf(engine, block.header.number, block.state, r.executed);
      var hash := if h.Some? then h.value else engine.transactionHash(t);
      block := block.(transactionsSet := block.transactionsSet + {hash});
      block := block.(transactions := block.transactions + [t]);
      if block.traces.Enabled? {
        block := block.(traces := Enabled(block.traces.traces + [TransactionTrace(t)]));
      }
      var receipt := Receipt(outcome, r.executed.cumulativeGasUsed, r.executed.logs, engine.logsBloom(r.executed.logs));
      block := block.(receipts := block.receipts + [receipt]);
      error := None;
    }

    /** Pushes until the first refusal. */
    method PushAll(ts: seq<Transaction>) returns (error: Option<PushError>)
      requires engine.Runs()
      modifies this
      ensures (block, error) == PushedAll(engine, old(block), ts)
    {
      hide Pushed;
      error := None;
      for i := 0 to |ts|
        invariant error.None? && PushedAll(engine, old(block), ts) == PushedAll(engine, block, ts[i..])
      {
        assert ts[i..][0] == ts[i] && ts[i..][1..] == ts[i + 1..];
        error := Push(ts[i], None);
        if error.Some? {
          return;
        }
      }
    }

    method PushUncle(uncle: Header) returns (ok: bool)
      modifies this
      ensures block == UnclePushed(engine, old(block), uncle)
      ensures ok <==> |block.uncles| == |old(block).uncles| + 1
    {
      if |block.uncles| + 1 > engine.maximumUncleCount(block.header.number) {
        return false;
      }
      block := block.(uncles := block.uncles + [uncle]);
      ok := true;
    }

    /** Pays the rewards and computes the header; the block is lost if the engine refuses. The state has
        to have no open checkpoint when it is committed. */
    method CloseAndLock() returns (r: Option<ExecutedBlock>)
      requires block.state.snapshots == [] && RewardsBalanced(engine)
      modifies this
      ensures r == Locked(engine, old(block))
    {
      match engine.closeStep(block) {
        case CloseFailed => return None;
        case NoRewards =>
        case Rewards(w, rewards) =>
          ghost var start := block;
          block := block.(state := w);
          for i := 0 to |rewards|
            invariant block == start.(state := PayRewards(w, rewards[..i]))
          {
            assert rewards[..i + 1][..i] == rewards[..i];
            block := block.(state := block.state.AddBalance(rewards[i].0, rewards[i].1, NoEmpty));
          }
          assert rewards[..|rewards|] == rewards;
          PayRewardsKeepsCheckpoints(w, rewards);
          if block.traces.Enabled? {
            block := block.(traces := Enabled(block.traces.traces + [RewardTrace(rewards)]));
          }
      }
      assert block.state.snapshots == [];
      var bloom := AccrueBlooms(block.receipts);
      var derived := block.header.derived;
      derived := derived.(transactionsRoot := engine.transactionsRoot(block.transactions));
      derived := derived.(unclesHash := engine.unclesHash(block.uncles));
      derived := derived.(stateRoot := engine.stateRoot(block.state.accounts));
      derived := derived.(receiptsRoot := engine.receiptsRoot(block.receipts));
      derived := derived.(logBloom := bloom);
      derived := derived.(gasUsed := GasUsed(block.receipts));
      block := block.(header := block.header.(derived := derived), loaded := map[]);
      r := Some(block);
    }

    method Close() returns (r: Option<ClosedBlock>)
      requires block.state.snapshots == [] && RewardsBalanced(engine)
      modifies this
      ensures r == Closed(engine, old(block))
      ensures r.Some? ==> Locked(engine, old(block)) == Some(r.value.Lock())
    {
      var unclosedState, unclosedEntries := block.state, ClonedEntries(block.loaded);
      var locked := CloseAndLock();
      r := if locked.None? then None else Some(ClosedBlock(locked.value, unclosedState, unclosedEntries));
    }
  }

  method AccrueBlooms(receipts: seq<Receipt>) returns (bloom: Bloom)
    ensures bloom == Blooms(receipts)
  {
    bloom := {};
    for i := 0 to |receipts|
      invariant bloom == Blooms(receipts[..i])
    {
      assert receipts[..i + 1][..i] == receipts[..i];
      bloom := bloom + receipts[i].logBloom;
    }
    assert receipts[..|receipts|] == receipts;
  }

  /** The header bloom answers for the logs of every receipt, and for nothing else. */
  lemma {:induction false} BloomCovers(receipts: seq<Receipt>, bit: nat)
    ensures bit in Blooms(receipts) <==> exists i | 0 <= i < |receipts| :: bit in receipts[i].logBloom
    decreases |receipts|
  {
    if receipts != [] {
      var n := |receipts| - 1;
      BloomCovers(receipts[..n], bit);
      if i :| 0 <= i < n && bit in receipts[i].logBloom {
        assert receipts[..n][i] == receipts[i];
      }
    }
  }
}
