/** What every call tree keeps, whatever the virtual machine does. The statements are about
    `Direct`; `CallStack.Machine.Consume` carries them over to the explicit stack. */
module CallTree {
  import opened Primitives
  import opened WorldState
  import opened Externalities
  import opened Executive

  // ----- checkpoints

  lemma InteractKeepsCheckpoints(env: Env, w: World, s: Substate, f: Frame)
    ensures Interact(env, w, s, f).world.snapshots == w.snapshots
    ensures Interact(env, w, s, f).world.startNonce == w.startNonce
  {
  }

  /** Only an action that starts a virtual machine leaves a checkpoint open, holding the state at entry. */
  lemma PrepareCheckpoints(env: Env, w: World, s: Substate, e: CallCreateExecutive)
    requires e.Fresh() && Affordable(w, e.kind.params) && BuiltinKnown(env, e)
    ensures var r := Prepare(env, w, s, e);
            && r.world.startNonce == w.startNonce
            && (r.Started? ==> r.world.snapshots == w.snapshots + [w.accounts])
            && (r.Settled? ==> r.world.snapshots == w.snapshots)
            && (r.Settled? && Rejects(r.result) ==> r.world == w)
  {
    hide TransferExecBalance, TransferExecBalanceAndInitContract;
    var p := e.kind.params;
    TransferCheckpoints(env, w, s, p);
    TransferCheckpoints(env, w.Checkpoint(), s, p);
    EndowmentCheckpoints(env, w.Checkpoint(), s, p);
  }

  lemma TransferCheckpoints(env: Env, w: World, s: Substate, p: ActionParams)
    requires Affordable(w, p)
    ensures var w' := TransferExecBalance(env, w, s, p).0; w'.snapshots == w.snapshots && w'.startNonce == w.startNonce
  {
  }

  lemma EndowmentCheckpoints(env: Env, w: World, s: Substate, p: ActionParams)
    requires Affordable(w, p)
    ensures var w' := TransferExecBalanceAndInitContract(env, w, s, p).0;
            w'.snapshots == w.snapshots && w'.startNonce == w.startNonce
  {
  }

  lemma {:induction false} DirectKeepsCheckpoints(env: Env, w: World, s: Substate, e: CallCreateExecutive)
    requires env.Terminating()
    requires e.Fresh() && Affordable(w, e.kind.params) && BuiltinKnown(env, e)
    ensures Direct(env, w, s, e).world.snapshots == w.snapshots
    ensures Direct(env, w, s, e).world.startNonce == w.startNonce
    decreases DepthLeft(env, e.depth), 1, 0
  {
    hide Interact, Prepare;
    PrepareCheckpoints(env, w, s, e);
    var r := Prepare(env, w, s, e);
    if r.Started? {
      DirectFrameKeepsCheckpoints(env, r.world, e.kind.unconfirmed, r.frame);
    }
  }

  lemma {:induction false} DirectFrameKeepsCheckpoints(env: Env, w: World, s: Substate, f: Frame)
    requires env.Terminating()
    ensures DirectFrame(env, w, s, f).world.snapshots == w.snapshots
    ensures DirectFrame(env, w, s, f).world.startNonce == w.startNonce
    decreases DepthLeft(env, f.depth), 0, StepsLeft(env, f)
  {
    hide Interact, Prepare, Direct;
    InteractKeepsCheckpoints(env, w, s, f);
    match Interact(env, w, s, f)
    case Answer(w', s', r) => DirectFrameKeepsCheckpoints(env, w', s', f.Answered(r));
    case Halt(_, _, _) =>
    case WantCall(w', s', p) =>
      var e := NewCallRaw(env, p, f.depth + 1, f.isStatic);
      DirectKeepsCheckpoints(env, w', s', e);
      var o := Direct(env, w', s', e);
      DirectFrameKeepsCheckpoints(env, o.world, o.substate, f.Answered(CallResponse(IntoMessageCallResult(o.result))));
    case WantCreate(w', s', p, address) =>
      var e := NewCreateRaw(p, f.depth + 1, f.isStatic);
      DirectKeepsCheckpoints(env, w', s', e);
      var o := Direct(env, w', s', e);
      var (c, s'') := IntoContractCreateResult(o.result, address, o.substate);
      DirectFrameKeepsCheckpoints(env, o.world, s'', f.Answered(CreateResponse(c)));
  }

  lemma {:induction false} RunToTrapKeepsCheckpoints(env: Env, w: World, s: Substate, f: Frame)
    requires env.Terminating()
    ensures RunToTrap(env, w, s, f).world.snapshots == w.snapshots
    decreases StepsLeft(env, f)
  {
    hide Interact;
    InteractKeepsCheckpoints(env, w, s, f);
    var i := Interact(env, w, s, f);
    if i.Answer? {
      RunToTrapKeepsCheckpoints(env, i.world, i.substate, f.Answered(i.response));
    }
  }

  /** A frame closes its checkpoint when it ends, and keeps it open while it is suspended. */
  lemma ContinueCheckpoints(env: Env, w: World, s: Substate, e: CallCreateExecutive, u: Substate, f: Frame)
    requires env.Terminating() && w.snapshots != []
    ensures var t := Continue(env, w, s, e, u, f);
            t.world.snapshots == if t.Done? then w.snapshots[..|w.snapshots| - 1] else w.snapshots
  {
    hide Interact, RunToTrap;
    RunToTrapKeepsCheckpoints(env, w, u, f);
    var last := RunToTrap(env, w, u, f);
    InteractKeepsCheckpoints(env, last.world, last.substate, last.frame);
  }

  lemma ExecCheckpoints(env: Env, w: World, s: Substate, e: CallCreateExecutive)
    requires env.Terminating()
    requires e.Fresh() && Affordable(w, e.kind.params) && BuiltinKnown(env, e)
    ensures var t := Exec(env, w, s, e);
            t.world.snapshots == if t.Done? then w.snapshots else w.snapshots + [w.accounts]
  {
    hide Prepare, Continue;
    PrepareCheckpoints(env, w, s, e);
    var r := Prepare(env, w, s, e);
    if r.Started? {
      ContinueCheckpoints(env, r.world, r.substate, e, e.kind.unconfirmed, r.frame);
    }
  }

  // ----- failed actions

  lemma PrepareTouchesOnly(env: Env, w: World, s: Substate, e: CallCreateExecutive)
    requires e.Fresh() && Affordable(w, e.kind.params) && BuiltinKnown(env, e)
    ensures var r := Prepare(env, w, s, e);
            r.substate == s.(touched := r.substate.touched) && s.touched <= r.substate.touched
  {
  }

  /** An action that fails or reverts leaves the account state and the open checkpoints exactly as it
      found them; of the parent's substate only the touched set may have grown. */
  lemma FailedActionLeavesNoTrace(env: Env, w: World, s: Substate, e: CallCreateExecutive)
    requires env.Terminating()
    requires e.Fresh() && Affordable(w, e.kind.params) && BuiltinKnown(env, e)
    requires Rejects(Direct(env, w, s, e).result)
    ensures var o := Direct(env, w, s, e);
            o.world == w && o.substate == s.(touched := o.substate.touched) && s.touched <= o.substate.touched
  {
    hide Interact, Prepare, DirectFrame;
    PrepareCheckpoints(env, w, s, e);
    PrepareTouchesOnly(env, w, s, e);
    var r := Prepare(env, w, s, e);
    if r.Started? {
      DirectFrameKeepsCheckpoints(env, r.world, e.kind.unconfirmed, r.frame);
    }
  }

  // ----- static frames (EIP-214)

  /** A code call runs foreign code on the sender's own account, and a delegate call moves no value. */
  predicate KeepsValueAtHome(p: ActionParams) {
    match p.callType
    case CallCode => p.sender == p.address && !p.isInputPrivate && !p.isOutputPrivate
    case DelegateCall => p.value.Apparent?
    case Call => true
    case StaticCall => true
    case NoCall => false
  }

  /** Nothing a program can read has changed, and nothing was logged, destroyed or created. */
  ghost predicate Unchanged(w: World, s: Substate, w': World, s': Substate) {
    SameReadings(w, w') && s'.suicides == s.suicides && s'.logs == s.logs && s'.contractsCreated == s.contractsCreated
  }

  lemma InteractStatic(env: Env, w: World, s: Substate, f: Frame)
    requires f.isStatic && !f.isCreate
    ensures var i := Interact(env, w, s, f);
            Unchanged(w, s, i.world, i.substate) && !i.WantCreate? && (i.WantCall? ==> KeepsValueAtHome(i.params))
  {
  }

  lemma TransferStatic(env: Env, w: World, s: Substate, p: ActionParams)
    requires Affordable(w, p) && KeepsValueAtHome(p) && !StaticViolation(p, true, false)
    ensures var (w', s') := TransferExecBalance(env, w, s, p); Unchanged(w, s, w', s')
  {
  }

  lemma PrepareStatic(env: Env, w: World, s: Substate, e: CallCreateExecutive)
    requires e.Fresh() && Affordable(w, e.kind.params) && BuiltinKnown(env, e)
    requires e.isStatic && (e.isCreate || KeepsValueAtHome(e.kind.params))
    ensures var r := Prepare(env, w, s, e);
            Unchanged(w, s, r.world, r.substate) && (r.Started? ==> !e.isCreate)
  {
    hide ExecTransfer, ExecBuiltin, TransferExecBalance, TransferExecBalanceAndInitContract;
    var p := e.kind.params;
    match e.kind
    case Transfer(_) => SimpleTransferStatic(env, w, s, e);
    case CallBuiltin(_) => BuiltinStatic(env, w, s, e);
    case ExecCall(_, _) =>
      if !StaticViolation(p, true, false) {
        TransferStatic(env, w.Checkpoint(), s, p);
      }
    case ExecCreate(_, _) =>
  }

  lemma SimpleTransferStatic(env: Env, w: World, s: Substate, e: CallCreateExecutive)
    requires e.Fresh() && e.kind.Transfer? && Affordable(w, e.kind.params)
    requires e.isStatic && KeepsValueAtHome(e.kind.params)
    ensures var r := ExecTransfer(env, w, s, e); Unchanged(w, s, r.world, r.substate)
  {
    hide TransferExecBalance;
    if !StaticViolation(e.kind.params, true, false) {
      TransferStatic(env, w, s, e.kind.params);
    }
  }

  lemma SameAccountsReadAlike(v: World, w: World)
    requires v.accounts == w.accounts && v.startNonce == w.startNonce
    ensures SameReadings(v, w)
  {
  }

  lemma BuiltinStatic(env: Env, w: World, s: Substate, e: CallCreateExecutive)
    requires e.Fresh() && e.kind.CallBuiltin? && Affordable(w, e.kind.params) && BuiltinKnown(env, e)
    requires e.isStatic && KeepsValueAtHome(e.kind.params)
    ensures var r := ExecBuiltin(env, w, s, e); Unchanged(w, s, r.world, r.substate)
  {
    hide TransferExecBalance;
    var p := e.kind.params;
    if !StaticViolation(p, true, false) {
      TransferStatic(env, w.Checkpoint(), s, p);
      TransferCheckpoints(env, w.Checkpoint(), s, p);
      var w' := TransferExecBalance(env, w.Checkpoint(), s, p).0;
      SameAccountsReadAlike(w, w.Checkpoint());
      SameAccountsReadAlike(w', w'.DiscardCheckpoint());
      SameAccountsReadAlike(w, w'.RevertToCheckpoint());
    }
  }

  /** A static action and everything below it changes no balance, nonce, code or storage, and adds no
      log, suicide or contract; a static create never starts. */
  lemma {:induction false} StaticActionChangesNothing(env: Env, w: World, s: Substate, e: CallCreateExecutive)
    requires env.Terminating()
    requires e.Fresh() && Affordable(w, e.kind.params) && BuiltinKnown(env, e)
    requires e.isStatic && (e.isCreate || KeepsValueAtHome(e.kind.params))
    ensures var o := Direct(env, w, s, e); Unchanged(w, s, o.world, o.substate)
    decreases DepthLeft(env, e.depth), 1, 0
  {
    hide Interact, Prepare, DirectFrame;
    PrepareStatic(env, w, s, e);
    PrepareCheckpoints(env, w, s, e);
    var r := Prepare(env, w, s, e);
    if r.Started? {
      StaticFrameChangesNothing(env, r.world, e.kind.unconfirmed, r.frame);
      DirectFrameKeepsCheckpoints(env, r.world, e.kind.unconfirmed, r.frame);
    }
  }

  lemma {:induction false} StaticFrameChangesNothing(env: Env, w: World, s: Substate, f: Frame)
    requires env.Terminating() && f.isStatic && !f.isCreate
    ensures var o := DirectFrame(env, w, s, f); Unchanged(w, s, o.world, o.substate)
    decreases DepthLeft(env, f.depth), 0, StepsLeft(env, f)
  {
    hide Interact, Prepare, Direct;
    InteractStatic(env, w, s, f);
    match Interact(env, w, s, f)
    case Answer(w', s', r) => StaticFrameChangesNothing(env, w', s', f.Answered(r));
    case Halt(_, _, _) =>
    case WantCall(w', s', p) =>
      var e := NewCallRaw(env, p, f.depth + 1, f.isStatic);
      StaticActionChangesNothing(env, w', s', e);
      var o := Direct(env, w', s', e);
      StaticFrameChangesNothing(env, o.world, o.substate, f.Answered(CallResponse(IntoMessageCallResult(o.result))));
  }

  // ----- gas

  function GasReturned(r: Response): nat {
    match r
    case CallResponse(CallSuccess(gas, _)) => gas
    case CallResponse(CallReverted(gas, _)) => gas
    case CreateResponse(Created(_, gas)) => gas
    case CreateResponse(CreateReverted(gas, _)) => gas
    case _ => 0
  }

  function GasProvided(r: Request): nat {
    match r
    case CallInstruction(_, gas, _, _, _) => gas
    case CreateInstruction(gas, _, _, _) => gas
    case _ => 0
  }

  /** No nested action of this history gave back more gas than the instruction provided. */
  ghost predicate HonestHistory(env: Env, p: ActionParams, d: nat, h: seq<Response>) {
    forall i | 0 <= i < |h| :: GasReturned(h[i]) <= GasProvided(env.nextRequest(p, d, h[..i]))
  }

  /** The gas meter of one frame: with honest nested actions a frame stops with at most its own gas. */
  ghost predicate GasMetered(env: Env) {
    forall p, d, h {:trigger env.nextRequest(p, d, h)} ::
      HonestHistory(env, p, d, h) && env.nextRequest(p, d, h).Stop? ==>
      env.nextRequest(p, d, h).left.gasLeft <= p.gas
  }

  predicate WithinGas(r: VmResult, gas: nat) {
    r.Ok? ==> r.value.gasLeft <= gas
  }

  lemma HonestAnswer(env: Env, f: Frame, r: Response)
    requires HonestHistory(env, f.params, f.depth, f.history)
    requires GasReturned(r) <= GasProvided(env.nextRequest(f.params, f.depth, f.history))
    ensures HonestHistory(env, f.params, f.depth, f.Answered(r).history)
  {
    var h := f.history + [r];
    forall i | 0 <= i < |h|
      ensures GasReturned(h[i]) <= GasProvided(env.nextRequest(f.params, f.depth, h[..i]))
    {
      if i < |f.history| {
        assert h[..i] == f.history[..i];
      } else {
        assert h[..i] == f.history;
      }
    }
  }

  lemma InteractGas(env: Env, w: World, s: Substate, f: Frame)
    requires GasMetered(env) && HonestHistory(env, f.params, f.depth, f.history)
    ensures match Interact(env, w, s, f)
            case Answer(_, _, r) => GasReturned(r) == 0
            case Halt(_, _, r) => WithinGas(r, f.params.gas)
            case WantCall(_, _, p) => p.gas == GasProvided(env.nextRequest(f.params, f.depth, f.history))
            case WantCreate(_, _, p, _) => p.gas == GasProvided(env.nextRequest(f.params, f.depth, f.history))
  {
  }

  lemma PrepareGas(env: Env, w: World, s: Substate, e: CallCreateExecutive)
    requires e.Fresh() && Affordable(w, e.kind.params) && BuiltinKnown(env, e)
    ensures var r := Prepare(env, w, s, e); r.Settled? ==> WithinGas(r.result, e.gas)
  {
  }

  /** No call tree gives back more gas than its root was given. */
  lemma {:induction false} ActionStaysWithinGas(env: Env, w: World, s: Substate, e: CallCreateExecutive)
    requires env.Terminating() && GasMetered(env)
    requires e.Fresh() && Affordable(w, e.kind.params) && BuiltinKnown(env, e)
    ensures WithinGas(Direct(env, w, s, e).result, e.gas)
    decreases DepthLeft(env, e.depth), 1, 0
  {
    hide Interact, Prepare, DirectFrame;
    PrepareGas(env, w, s, e);
    var r := Prepare(env, w, s, e);
    if r.Started? {
      FrameStaysWithinGas(env, r.world, e.kind.unconfirmed, r.frame);
    }
  }

  lemma {:induction false} FrameStaysWithinGas(env: Env, w: World, s: Substate, f: Frame)
    requires env.Terminating() && GasMetered(env) && HonestHistory(env, f.params, f.depth, f.history)
    ensures WithinGas(DirectFrame(env, w, s, f).result, f.params.gas)
    decreases DepthLeft(env, f.depth), 0, StepsLeft(env, f)
  {
    hide Interact, Prepare, Direct, GasMetered, HonestHistory;
    InteractGas(env, w, s, f);
    match Interact(env, w, s, f)
    case Answer(w', s', r) =>
      HonestAnswer(env, f, r);
      FrameStaysWithinGas(env, w', s', f.Answered(r));
    case Halt(_, _, _) =>
    case WantCall(w', s', p) =>
      var e := NewCallRaw(env, p, f.depth + 1, f.isStatic);
      ActionStaysWithinGas(env, w', s', e);
      var o := Direct(env, w', s', e);
      var r := CallResponse(IntoMessageCallResult(o.result));
      HonestAnswer(env, f, r);
      FrameStaysWithinGas(env, o.world, o.substate, f.Answered(r));
    case WantCreate(w', s', p, address) =>
      var e := NewCreateRaw(p, f.depth + 1, f.isStatic);
      ActionStaysWithinGas(env, w', s', e);
      var o := Direct(env, w', s', e);
      var (c, s'') := IntoContractCreateResult(o.result, address, o.substate);
      HonestAnswer(env, f, CreateResponse(c));
      FrameStaysWithinGas(env, o.world, s'', f.Answered(CreateResponse(c)));
  }

  // ----- balances

  /** No sender hashes to its own address. */
  ghost predicate FreshAddresses(env: Env) {
    forall scheme, sender, nonce, code {:trigger env.contractAddress(scheme, sender, nonce, code)} ::
      env.contractAddress(scheme, sender, nonce, code) != sender
  }

  /** Public money that an accepted action brings in from, or takes out to, the private side. */
  function PrivateInflow(p: ActionParams): int {
    var amount: int := p.value.amount;
    if !p.value.Transfer? || p.isInputPrivate == p.isOutputPrivate then 0
    else if p.isInputPrivate then amount
    else -amount
  }

  /** Both accounts of a contract creation are different, and the endowment is public. */
  predicate PublicCreate(p: ActionParams) {
    p.sender != p.address && !p.isInputPrivate && !p.isOutputPrivate
  }

  /** What the next request burns: an account that destroys itself in favour of itself loses its balance. */
  function Burns(env: Env, w: World, f: Frame): nat {
    match env.nextRequest(f.params, f.depth, f.history)
    case Suicide(refund) => if !f.isStatic && refund == f.params.address then w.Balance(refund) else 0
    case _ => 0
  }

  /** What an action and the actions below it burn for good; a rejected one burns nothing. */
  ghost function BurntByAction(env: Env, w: World, s: Substate, e: CallCreateExecutive): nat
    requires env.Terminating()
    requires e.Fresh() && Affordable(w, e.kind.params) && BuiltinKnown(env, e)
    decreases DepthLeft(env, e.depth), 1, 0
  {
    match Prepare(env, w, s, e)
    case Settled(_, _, _) => 0
    case Started(w', _, f) =>
      if Rejects(DirectFrame(env, w', e.kind.unconfirmed, f).result) then 0
      else BurntByFrame(env, w', e.kind.unconfirmed, f)
  }

  ghost function BurntByFrame(env: Env, w: World, s: Substate, f: Frame): nat
    requires env.Terminating()
    decreases DepthLeft(env, f.depth), 0, StepsLeft(env, f)
  {
    match Interact(env, w, s, f)
    case Answer(w', s', r) => Burns(env, w, f) + BurntByFrame(env, w', s', f.Answered(r))
    case Halt(_, _, _) => 0
    case WantCall(w', s', p) =>
      var e := NewCallRaw(env, p, f.depth + 1, f.isStatic);
      var o := Direct(env, w', s', e);
      BurntByAction(env, w', s', e)
      + BurntByFrame(env, o.world, o.substate, f.Answered(CallResponse(IntoMessageCallResult(o.result))))
    case WantCreate(w', s', p, address) =>
      var e := NewCreateRaw(p, f.depth + 1, f.isStatic);
      var o := Direct(env, w', s', e);
      var (c, s'') := IntoContractCreateResult(o.result, address, o.substate);
      BurntByAction(env, w', s', e) + BurntByFrame(env, o.world, s'', f.Answered(CreateResponse(c)))
  }

  /** Between the two states the total changed by exactly `flow` less what was burnt, and nothing is burnt
      without a suicide. */
  ghost predicate Conserves(w: World, w': World, suicides: set<Address>, burnt: nat, flow: int) {
    && Supply(w'.accounts) + burnt == Supply(w.accounts) + flow
    && (suicides == {} ==> burnt == 0)
  }

  lemma TransferConserves(env: Env, w: World, s: Substate, p: ActionParams)
    requires Affordable(w, p) && Supply(w.accounts) <= MAX_U256 && Supply(w.accounts) + PrivateInflow(p) <= MAX_U256
    ensures Supply(TransferExecBalance(env, w, s, p).0.accounts) == Supply(w.accounts) + PrivateInflow(p)
  {
    var mode := env.schedule.CleanupMode();
    if p.value.Transfer? {
      var amount := p.value.amount;
      match (p.isInputPrivate, p.isOutputPrivate)
      case (false, false) => SupplyTransfer(w, p.sender, p.address, amount, mode);
      case (true, false) =>
        SupplyAdd(w, p.address, amount, mode);
        BalanceBelowSupply(w, p.address);
      case (false, true) => SupplySub(w, p.sender, amount);
      case (true, true) =>
    }
  }

  lemma EndowmentConserves(env: Env, w: World, s: Substate, p: ActionParams)
    requires Affordable(w, p) && PublicCreate(p) && Supply(w.accounts) <= MAX_U256
    ensures Supply(TransferExecBalanceAndInitContract(env, w, s, p).0.accounts) == Supply(w.accounts)
  {
    hide Supply;
    var amount := if p.value.Transfer? then p.value.amount else 0;
    var v := if p.value.Transfer? then w.SubBalance(p.sender, amount) else w;
    if p.value.Transfer? {
      SupplySub(w, p.sender, amount);
    }
    BalanceBelowSupply(v, p.address);
    assert v.Balance(p.address) == w.Balance(p.address);
    var nonceOffset := if env.schedule.noEmpty then 1 else 0;
    SupplyPut(v.accounts, p.address, Account(amount + w.Balance(p.address), w.startNonce + nonceOffset, [], map[]));
  }

  ghost predicate SupplyFits(w: World, e: CallCreateExecutive)
    requires e.Fresh()
  {
    && Supply(w.accounts) <= MAX_U256
    && Supply(w.accounts) + PrivateInflow(e.kind.params) <= MAX_U256
    && (e.isCreate ==> PublicCreate(e.kind.params))
  }

  lemma BuiltinConserves(env: Env, w: World, s: Substate, e: CallCreateExecutive)
    requires e.Fresh() && e.kind.CallBuiltin? && Affordable(w, e.kind.params) && BuiltinKnown(env, e)
             && SupplyFits(w, e)
    ensures var r := ExecBuiltin(env, w, s, e);
            Supply(r.world.accounts)
              == Supply(w.accounts) + (if Rejects(r.result) then 0 else PrivateInflow(e.kind.params))
  {
    PrepareCheckpoints(env, w, s, e);
    hide TransferExecBalance, Supply, Prepare;
    TransferConserves(env, w.Checkpoint(), s, e.kind.params);
  }

  lemma PrepareConserves(env: Env, w: World, s: Substate, e: CallCreateExecutive)
    requires e.Fresh() && Affordable(w, e.kind.params) && BuiltinKnown(env, e) && SupplyFits(w, e)
    ensures var r := Prepare(env, w, s, e);
            Supply(r.world.accounts)
              == Supply(w.accounts) + (if r.Settled? && Rejects(r.result) then 0 else PrivateInflow(e.kind.params))
  {
    var p := e.kind.params;
    hide TransferExecBalance, TransferExecBalanceAndInitContract, ExecBuiltin, Supply;
    match e.kind
    case Transfer(_) => TransferConserves(env, w, s, p);
    case CallBuiltin(_) => BuiltinConserves(env, w, s, e);
    case ExecCall(_, _) => TransferConserves(env, w.Checkpoint(), s, p);
    case ExecCreate(_, _) => EndowmentConserves(env, w.Checkpoint(), s, p);
  }

  lemma SuicideConserves(env: Env, w: World, s: Substate, address: Address, refund: Address)
    requires Supply(w.accounts) <= MAX_U256
    ensures var i := SuicideTo(env, w, s, address, refund);
            && i.Answer? && i.substate.suicides == s.suicides + {address}
            && Supply(i.world.accounts) + (if refund == address then w.Balance(refund) else 0) == Supply(w.accounts)
  {
    var balance := w.Balance(address);
    if address == refund {
      SupplySub(w, address, balance);
    } else {
      SupplyTransfer(w, address, refund, balance, env.schedule.CleanupMode());
    }
  }

  lemma PutSameBalance(w: World, a: Address, account: Account)
    requires account.balance == w.Balance(a)
    ensures Supply(w.Put(a, account).accounts) == Supply(w.accounts)
  {
    SupplyPut(w.accounts, a, account);
  }

  lemma InteractConserves(env: Env, w: World, s: Substate, f: Frame)
    requires FreshAddresses(env) && Supply(w.accounts) <= MAX_U256
    ensures var i := Interact(env, w, s, f);
            && s.suicides <= i.substate.suicides
            && Conserves(w, i.world, i.substate.suicides, Burns(env, w, f), 0)
            && (!i.Answer? ==> Burns(env, w, f) == 0)
            && (i.WantCall? ==> PrivateInflow(i.params) == 0)
            && (i.WantCreate? ==> PrivateInflow(i.params) == 0 && PublicCreate(i.params))
  {
    hide Supply, SuicideTo, CreateRequest, Finalize;
    var address := f.params.address;
    var account := w.Required(address);
    match env.nextRequest(f.params, f.depth, f.history)
    case SetStorage(key, value) => PutSameBalance(w, address, account.(storage := account.storage[key := value]));
    case Suicide(refund) =>
      SuicideConserves(env, w, s, address, refund);
      assert address in s.suicides + {address};
    case CreateInstruction(gas, amount, code, scheme) =>
      CreateConserves(env, w, s, f, gas, amount, code, scheme);
    case Stop(left) =>
      FinalizeConserves(env, w, s, f, left);
    case _ =>
  }

  lemma CreateConserves(env: Env, w: World, s: Substate, f: Frame, gas: nat, amount: nat, code: Bytes,
                        scheme: CreateContractAddress)
    requires FreshAddresses(env)
    ensures var i := CreateRequest(env, w, s, f, gas, amount, code, scheme);
            && i.substate == s && Supply(i.world.accounts) == Supply(w.accounts)
            && (i.WantCreate? ==> PrivateInflow(i.params) == 0 && PublicCreate(i.params))
  {
    hide Supply;
    var account := w.Required(f.params.address);
    PutSameBalance(w, f.params.address, account.(nonce := SaturatingAdd(account.nonce, 1)));
  }

  lemma FinalizeConserves(env: Env, w: World, s: Substate, f: Frame, left: GasLeft)
    ensures var i := Finalize(env, w, s, f, left); i.substate == s && Supply(i.world.accounts) == Supply(w.accounts)
  {
    hide Supply;
    if left.NeedsReturn? {
      PutSameBalance(w, f.params.address, w.Required(f.params.address).(code := left.data));
    }
  }

  /** An accepted action moves the total supply by what crosses the private border, less what it burns, and
      a rejected one does not move it. */
  lemma {:induction false} ActionConserves(env: Env, w: World, s: Substate, e: CallCreateExecutive)
    requires env.Terminating() && FreshAddresses(env)
    requires e.Fresh() && Affordable(w, e.kind.params) && BuiltinKnown(env, e) && SupplyFits(w, e)
    ensures var o := Direct(env, w, s, e);
            && s.suicides <= o.substate.suicides
            && Conserves(w, o.world, o.substate.suicides, BurntByAction(env, w, s, e),
                         if Rejects(o.result) then 0 else PrivateInflow(e.kind.params))
    decreases DepthLeft(env, e.depth), 1, 0
  {
    hide Interact, Prepare, DirectFrame, BurntByFrame, Supply;
    PrepareConserves(env, w, s, e);
    PrepareCheckpoints(env, w, s, e);
    PrepareTouchesOnly(env, w, s, e);
    var r := Prepare(env, w, s, e);
    if r.Started? {
      FrameConserves(env, r.world, e.kind.unconfirmed, r.frame);
      DirectFrameKeepsCheckpoints(env, r.world, e.kind.unconfirmed, r.frame);
    }
  }

  lemma {:induction false} FrameConserves(env: Env, w: World, s: Substate, f: Frame)
    requires env.Terminating() && FreshAddresses(env) && Supply(w.accounts) <= MAX_U256
    ensures var o := DirectFrame(env, w, s, f);
            && s.suicides <= o.substate.suicides
            && Conserves(w, o.world, o.substate.suicides, BurntByFrame(env, w, s, f), 0)
    decreases DepthLeft(env, f.depth), 0, StepsLeft(env, f)
  {
    hide Interact, Prepare, Direct, BurntByAction, Burns, Supply;
    InteractConserves(env, w, s, f);
    match Interact(env, w, s, f)
    case Answer(w', s', r) => FrameConserves(env, w', s', f.Answered(r));
    case Halt(_, _, _) =>
    case WantCall(w', s', p) =>
      var e := NewCallRaw(env, p, f.depth + 1, f.isStatic);
      ActionConserves(env, w', s', e);
      var o := Direct(env, w', s', e);
      FrameConserves(env, o.world, o.substate, f.Answered(CallResponse(IntoMessageCallResult(o.result))));
    case WantCreate(w', s', p, address) =>
      var e := NewCreateRaw(p, f.depth + 1, f.isStatic);
      ActionConserves(env, w', s', e);
      var o := Direct(env, w', s', e);
      var (c, s'') := IntoContractCreateResult(o.result, address, o.substate);
      FrameConserves(env, o.world, s'', f.Answered(CreateResponse(c)));
  }
}
