/** The call/create executive: nested actions on an explicit call stack with trap and resume,
    and the direct recursion that a virtual machine without traps performs. */
module Executive {
  import opened Primitives
  import opened WorldState
  import opened Externalities

  datatype Kind =
    | Transfer(params: ActionParams)
    | CallBuiltin(params: ActionParams)
    | ExecCall(params: ActionParams, unconfirmed: Substate)
    | ExecCreate(params: ActionParams, unconfirmed: Substate)
    | ResumeCall(resume: Frame, unconfirmed: Substate)
    | ResumeCreate(resume: Frame, unconfirmed: Substate)

  datatype CallCreateExecutive = CallCreateExecutive(
    depth: nat,
    isStatic: bool,
    isCreate: bool,
    gas: nat,
    kind: Kind
  ) {
    predicate HasUnconfirmedSubstate() {
      !kind.Transfer? && !kind.CallBuiltin?
    }

    /** Not yet executed, and of the kind its constructor gives it. */
    predicate Fresh() {
      && !kind.ResumeCall? && !kind.ResumeCreate?
      && (isCreate <==> kind.ExecCreate?)
      && (kind.ExecCall? || kind.ExecCreate? ==> kind.unconfirmed == NEW_SUBSTATE)
      && gas == kind.params.gas
    }

    /** Waiting for the result of a nested action. */
    predicate Suspended() {
      && (kind.ResumeCall? || kind.ResumeCreate?)
      && kind.resume.depth == depth && kind.resume.isStatic == isStatic && kind.resume.isCreate == isCreate
      && kind.resume.params.gas == gas
    }

    function WithUnconfirmed(s: Substate): CallCreateExecutive
      requires HasUnconfirmedSubstate()
    {
      this.(kind := kind.(unconfirmed := s))
    }
  }

  function NewCallRaw(env: Env, p: ActionParams, depth: nat, parentStatic: bool): (e: CallCreateExecutive)
    ensures e.Fresh() && !e.isCreate && e.kind.params == p && e.depth == depth
    ensures e.isStatic <==> parentStatic || p.callType.StaticCall?
  {
    CallCreateExecutive(depth, parentStatic || p.callType.StaticCall?, false, p.gas,
                        if env.builtin(p.codeAddress).Some? then CallBuiltin(p)
                        else if p.code.Some? then ExecCall(p, NEW_SUBSTATE)
                        else Kind.Transfer(p))
  }

  function NewCreateRaw(p: ActionParams, depth: nat, isStatic: bool): (e: CallCreateExecutive)
    ensures e.Fresh() && e.isCreate && e.kind.params == p && e.depth == depth && e.isStatic == isStatic
  {
    CallCreateExecutive(depth, isStatic, true, p.gas, ExecCreate(p, NEW_SUBSTATE))
  }

  /** The builtin that `new_call_raw` found is still there when `exec` looks it up again. */
  predicate BuiltinKnown(env: Env, e: CallCreateExecutive) {
    e.kind.CallBuiltin? ==> env.builtin(e.kind.params.codeAddress).Some?
  }

  predicate StaticViolation(p: ActionParams, isStatic: bool, isCreate: bool) {
    if isCreate then isStatic
    else isStatic && (p.callType.StaticCall? || p.callType.Call?) && p.value.amount > 0
  }

  function TransferExecBalance(env: Env, w: World, s: Substate, p: ActionParams): (World, Substate)
    requires Affordable(w, p)
  {
    var mode := env.schedule.CleanupMode();
    if !p.value.Transfer? then (w, s)
    else
      var amount := p.value.amount;
      match (p.isInputPrivate, p.isOutputPrivate)
      case (false, false) =>
        (w.TransferBalance(p.sender, p.address, amount, mode),
         s.Touch(w.TouchedByTransfer(p.sender, p.address, amount, mode)))
      case (true, false) =>
        (w.AddBalance(p.address, amount, mode), s.Touch(w.TouchedByAdd(p.address, amount, mode)))
      case (false, true) =>
        (w.SubBalance(p.sender, amount), s.Touch(w.TouchedBySub(p.sender, mode)))
      case (true, true) => (w, s)
  }

  function TransferExecBalanceAndInitContract(env: Env, w: World, s: Substate, p: ActionParams): (World, Substate)
    requires Affordable(w, p)
  {
    var nonceOffset := if env.schedule.noEmpty then 1 else 0;
    var previous := w.Balance(p.address);
    if p.value.Transfer? then
      var w' := if p.isInputPrivate then w else w.SubBalance(p.sender, p.value.amount);
      var s' := if p.isInputPrivate then s else s.Touch(w.TouchedBySub(p.sender, env.schedule.CleanupMode()));
      (w'.NewContract(p.address, SaturatingAdd(p.value.amount, previous), nonceOffset), s')
    else
      (w.NewContract(p.address, previous, nonceOffset), s)
  }

  /** Whether `enact_result` drops the frame's changes. */
  predicate Rejects(r: VmResult) {
    (r.Err? && !r.error.Internal?) || (r.Ok? && !r.value.applyState)
  }

  function EnactResult(r: VmResult, w: World, s: Substate, unconfirmed: Substate): (World, Substate) {
    if Rejects(r) then (w.RevertToCheckpoint(), s) else (w.DiscardCheckpoint(), s.Accrue(unconfirmed))
  }

  /** The part of `exec` before the virtual machine starts. */
  datatype Prologue =
    | Settled(world: World, substate: Substate, result: VmResult)
    | Started(world: World, substate: Substate, frame: Frame)

  function ExecTransfer(env: Env, w: World, s: Substate, e: CallCreateExecutive): (r: Prologue)
    requires e.Fresh() && e.kind.Transfer? && Affordable(w, e.kind.params)
    ensures r.Settled?
  {
    var p := e.kind.params;
    if StaticViolation(p, e.isStatic, e.isCreate) then
      Settled(w, s, Err(MutableCallInStaticContext))
    else
      var (w', s') := TransferExecBalance(env, w, s, p);
      Settled(w', s', Ok(FinalizationResult(p.gas, [], true)))
  }

  function ExecBuiltin(env: Env, w: World, s: Substate, e: CallCreateExecutive): (r: Prologue)
    requires e.Fresh() && e.kind.CallBuiltin? && Affordable(w, e.kind.params) && BuiltinKnown(env, e)
    ensures r.Settled?
  {
    var p := e.kind.params;
    if StaticViolation(p, e.isStatic, e.isCreate) then
      Settled(w, s, Err(MutableCallInStaticContext))
    else
      var (w', s') := TransferExecBalance(env, w.Checkpoint(), s, p);
      var builtin := env.builtin(p.codeAddress).value;
      var data := if p.data.Some? then p.data.value else [];
      var cost := builtin.cost(data);
      if cost <= p.gas then
        match builtin.execute(data)
        case None => Settled(w'.RevertToCheckpoint(), s', Err(BuiltIn))
        case Some(output) =>
          Settled(w'.DiscardCheckpoint(), s', Ok(FinalizationResult(p.gas - cost, output, true)))
      else
        Settled(w'.RevertToCheckpoint(), s', Err(OutOfGas))
  }

  function Prepare(env: Env, w: World, s: Substate, e: CallCreateExecutive): (r: Prologue)
    requires e.Fresh() && Affordable(w, e.kind.params) && BuiltinKnown(env, e)
    ensures r.Started? ==> (e.kind.ExecCall? || e.kind.ExecCreate?)
                           && r.frame == Frame(e.kind.params, e.depth, e.isStatic, e.isCreate, [])
  {
    var p := e.kind.params;
    match e.kind
    case Transfer(_) => ExecTransfer(env, w, s, e)
    case CallBuiltin(_) => ExecBuiltin(env, w, s, e)
    case ExecCall(_, _) =>
      if StaticViolation(p, e.isStatic, e.isCreate) then
        Settled(w, s, Err(MutableCallInStaticContext))
      else
        var (w', s') := TransferExecBalance(env, w.Checkpoint(), s, p);
        Started(w', s', Frame(p, e.depth, e.isStatic, e.isCreate, []))
    case ExecCreate(_, _) =>
      if w.HasCodeOrNonce(p.address) then
        Settled(w, s, Err(OutOfGas))
      else if StaticViolation(p, e.isStatic, e.isCreate) then
        Settled(w, s, Err(MutableCallInStaticContext))
      else
        var (w', s') := TransferExecBalanceAndInitContract(env, w.Checkpoint(), s, p);
        Started(w', s', Frame(p, e.depth, e.isStatic, e.isCreate, []))
  }

  function IntoMessageCallResult(r: VmResult): MessageCallResult {
    if r.Ok? then
      if r.value.applyState then CallSuccess(r.value.gasLeft, r.value.returnData)
      else CallReverted(r.value.gasLeft, r.value.returnData)
    else
      CallFailed
  }

  function IntoContractCreateResult(r: VmResult, address: Address, s: Substate): (ContractCreateResult, Substate) {
    if r.Ok? then
      if r.value.applyState then
        (Created(address, r.value.gasLeft), s.(contractsCreated := s.contractsCreated + [address]))
      else
        (CreateReverted(r.value.gasLeft, r.value.returnData), s)
    else
      (CreateFailed, s)
  }

  // ----- direct recursion: `Externalities::call` and `create` with `trap` false

  /** A finished run and the number of nested actions it performed. */
  datatype Outcome = Outcome(world: World, substate: Substate, result: VmResult, calls: nat)

  ghost function DepthLeft(env: Env, depth: nat): nat {
    if depth < env.schedule.maxDepth then env.schedule.maxDepth - depth else 0
  }

  /** Runs a fresh executive to the end; `s` is the substate of its parent. */
  function Direct(env: Env, w: World, s: Substate, e: CallCreateExecutive): Outcome
    requires env.Terminating()
    requires e.Fresh() && Affordable(w, e.kind.params) && BuiltinKnown(env, e)
    decreases DepthLeft(env, e.depth), 1, 0
  {
    match Prepare(env, w, s, e)
    case Settled(w', s', r) => Outcome(w', s', r, 0)
    case Started(w', s', f) =>
      var o := DirectFrame(env, w', e.kind.unconfirmed, f);
      var (w'', s'') := EnactResult(o.result, o.world, s', o.substate);
      Outcome(w'', s'', o.result, o.calls)
  }

  /** Runs a virtual machine to the end; `s` is its own unconfirmed substate. */
  function DirectFrame(env: Env, w: World, s: Substate, f: Frame): Outcome
    requires env.Terminating()
    decreases DepthLeft(env, f.depth), 0, StepsLeft(env, f)
  {
    match Interact(env, w, s, f)
    case Answer(w', s', response) => DirectFrame(env, w', s', f.Answered(response))
    case Halt(w', s', r) => Outcome(w', s', r, 0)
    case WantCall(w', s', p) =>
      var o := Direct(env, w', s', NewCallRaw(env, p, f.depth + 1, f.isStatic));
      var o' := DirectFrame(env, o.world, o.substate, f.Answered(CallResponse(IntoMessageCallResult(o.result))));
      o'.(calls := 1 + o.calls + o'.calls)
    case WantCreate(w', s', p, address) =>
      var o := Direct(env, w', s', NewCreateRaw(p, f.depth + 1, f.isStatic));
      var (c, s'') := IntoContractCreateResult(o.result, address, o.substate);
      var o' := DirectFrame(env, o.world, s'', f.Answered(CreateResponse(c)));
      o'.(calls := 1 + o.calls + o'.calls)
  }

  // ----- trap and resume

  /** What `exec`, `resume_call` and `resume_create` return: a result, or a trap that carries the
      nested action and the suspended executive. */
  datatype TrapResult =
    | Done(world: World, substate: Substate, result: VmResult)
    | TrapCall(world: World, substate: Substate, params: ActionParams, resume: CallCreateExecutive)
    | TrapCreate(world: World, substate: Substate, params: ActionParams, address: Address, resume: CallCreateExecutive)

  /** Runs frame `f` of executive `e` until it ends or traps; `s` is the parent's substate. */
  function Continue(env: Env, w: World, s: Substate, e: CallCreateExecutive, unconfirmed: Substate,
                    f: Frame): (r: TrapResult)
    requires env.Terminating()
    ensures !r.Done? ==> r.resume == e.(kind := r.resume.kind)
  {
    var last := RunToTrap(env, w, unconfirmed, f);
    var f' := last.frame;
    match Interact(env, last.world, last.substate, f')
    case Halt(w', u', result) =>
      var (w'', s'') := EnactResult(result, w', s, u');
      Done(w'', s'', result)
    case WantCall(w', u', p) => TrapCall(w', s, p, e.(kind := ResumeCall(f', u')))
    case WantCreate(w', u', p, address) => TrapCreate(w', s, p, address, e.(kind := ResumeCreate(f', u')))
  }

  function Exec(env: Env, w: World, s: Substate, e: CallCreateExecutive): (r: TrapResult)
    requires env.Terminating()
    requires e.Fresh() && Affordable(w, e.kind.params) && BuiltinKnown(env, e)
    ensures !r.Done? ==> r.resume == e.(kind := r.resume.kind)
  {
    match Prepare(env, w, s, e)
    case Settled(w', s', r) => Done(w', s', r)
    case Started(w', s', f) => Continue(env, w', s', e, e.kind.unconfirmed, f)
  }

  function ResumeWithCall(env: Env, w: World, s: Substate, e: CallCreateExecutive, r: MessageCallResult): TrapResult
    requires env.Terminating()
    requires e.kind.ResumeCall?
  {
    Continue(env, w, s, e, e.kind.unconfirmed, e.kind.resume.Answered(CallResponse(r)))
  }

  function ResumeWithCreate(env: Env, w: World, s: Substate, e: CallCreateExecutive,
                            r: ContractCreateResult): TrapResult
    requires env.Terminating()
    requires e.kind.ResumeCreate?
  {
    Continue(env, w, s, e, e.kind.unconfirmed, e.kind.resume.Answered(CreateResponse(r)))
  }
}
