/** The interface between a virtual machine and the chain: what each request does to the
    account state and to the unconfirmed substate of the running frame. */
module Externalities {
  import opened Primitives
  import opened WorldState

  datatype CleanDustMode = Off | BasicOnly | WithCodeAndStorage

  /** The part of the cost schedule that the executive reads. */
  datatype Schedule = Schedule(
    maxDepth: nat,
    noEmpty: bool,
    killEmpty: bool,
    killDust: CleanDustMode,
    keepUnsignedNonce: bool,
    exceptionalFailedCodeDeposit: bool,
    createDataGas: nat,
    createDataLimit: nat,
    suicideRefundGas: nat,
    txGas: nat,
    txCreateGas: nat,
    txDataZeroGas: nat,
    txDataNonZeroGas: nat
  ) {
    function CleanupMode(): CleanupMode {
      if killDust != Off || (noEmpty && killEmpty) then TrackTouched
      else if noEmpty then NoEmpty
      else ForceCreate
    }
  }

  datatype LogEntry = LogEntry(address: Address, topics: seq<Word>, data: Bytes)

  datatype Substate = Substate(
    suicides: set<Address>,
    touched: set<Address>,
    logs: seq<LogEntry>,
    sstoreClearsRefund: int,
    contractsCreated: seq<Address>
  ) {
    function Accrue(s: Substate): Substate {
      Substate(
        suicides + s.suicides,
        touched + s.touched,
        logs + s.logs,
        sstoreClearsRefund + s.sstoreClearsRefund,
        contractsCreated + s.contractsCreated)
    }

    function Touch(addresses: set<Address>): Substate {
      this.(touched := touched + addresses)
    }
  }

  const NEW_SUBSTATE := Substate({}, {}, [], 0, [])

  datatype VmError =
    | OutOfGas | BadJumpDestination | BadInstruction | StackUnderflow | OutOfStack | BuiltIn
    | MutableCallInStaticContext | Internal | Wasm | OutOfBounds | Reverted

  datatype FinalizationResult = FinalizationResult(gasLeft: nat, returnData: Bytes, applyState: bool)

  datatype VmResult = Ok(value: FinalizationResult) | Err(error: VmError)

  datatype ActionValue = Transfer(amount: nat) | Apparent(amount: nat)

  datatype CallType = NoCall | Call | CallCode | DelegateCall | StaticCall

  /** The call types that have an instruction. */
  type CallOpcode = c: CallType | !c.NoCall? witness Call

  datatype ActionParams = ActionParams(
    codeAddress: Address,
    address: Address,
    sender: Address,
    origin: Address,
    gas: nat,
    gasPrice: nat,
    value: ActionValue,
    code: Option<Bytes>,
    data: Option<Bytes>,
    callType: CallType,
    isInputPrivate: bool,
    isOutputPrivate: bool
  )

  datatype CreateContractAddress =
    | FromSenderAndNonce
    | FromSenderSaltAndCodeHash(salt: Word)
    | FromSenderAndCodeHash

  datatype MessageCallResult =
    | CallSuccess(gasLeft: nat, data: Bytes)
    | CallFailed
    | CallReverted(gasLeft: nat, data: Bytes)

  datatype ContractCreateResult =
    | Created(address: Address, gasLeft: nat)
    | CreateFailed
    | CreateReverted(gasLeft: nat, data: Bytes)

  datatype GasLeft =
    | Known(gasLeft: nat)
    | NeedsReturn(gasLeft: nat, data: Bytes, applyState: bool)

  /** One request of the virtual machine. */
  datatype Request =
    | ReadStorage(key: Word)
    | ReadBalance(address: Address)
    | ReadExists(address: Address)
    | ReadExistsAndNotNull(address: Address)
    | ReadOriginBalance
    | ReadCode(address: Address)
    | ReadCodeHash(address: Address)
    | ReadCodeSize(address: Address)
    | ReadBlockHash(number: nat)
    | ReadIsStatic
    | SetStorage(key: Word, value: Word)
    | Log(topics: seq<Word>, data: Bytes)
    | Suicide(refundAddress: Address)
    | AddSstoreRefund(refund: nat)
    | SubSstoreRefund(refund: nat)
    | CallInstruction(callType: CallOpcode, gas: nat, codeAddress: Address, amount: nat, data: Bytes)
    | CreateInstruction(gas: nat, amount: nat, code: Bytes, scheme: CreateContractAddress)
    | Stop(left: GasLeft)
    | Fail(error: VmError)

  /** What the virtual machine learns from a request. */
  datatype Response =
    | Unit
    | Number(n: nat)
    | Flag(b: bool)
    | CodeOf(code: Option<Bytes>)
    | HashOf(hash: Option<Hash>)
    | SizeOf(size: Option<nat>)
    | CallResponse(callResult: MessageCallResult)
    | CallNotPossible
    | CreateResponse(createResult: ContractCreateResult)
    | CreateNotPossible

  datatype Builtin = Builtin(cost: Bytes -> nat, execute: Bytes -> Option<Bytes>)

  /** Everything outside the account state. A deterministic virtual machine is the function that
      picks its next request from its parameters, its depth and the responses it has seen;
      `stepBound` says that its gas runs out in the end. */
  datatype Env = Env(
    schedule: Schedule,
    nextRequest: (ActionParams, nat, seq<Response>) -> Request,
    stepBound: ActionParams -> nat,
    builtin: Address -> Option<Builtin>,
    blockNumber: nat,
    lastHash: nat -> Hash,
    codeHash: Bytes -> Hash,
    contractAddress: (CreateContractAddress, Address, nat, Bytes) -> Address
  ) {
    ghost predicate Terminating() {
      forall p, d, h {:trigger nextRequest(p, d, h)} :: stepBound(p) <= |h| ==>
        nextRequest(p, d, h).Stop? || nextRequest(p, d, h).Fail?
    }
  }

  /** A virtual machine in the middle of its run. */
  datatype Frame = Frame(
    params: ActionParams,
    depth: nat,
    isStatic: bool,
    isCreate: bool,
    history: seq<Response>
  ) {
    function Answered(r: Response): Frame {
      this.(history := history + [r])
    }
  }

  ghost function StepsLeft(env: Env, f: Frame): nat {
    if |f.history| < env.stepBound(f.params) then env.stepBound(f.params) - |f.history| else 0
  }

  /** Outcome of one request: an answer, the end of the run, or a nested action to execute. */
  datatype Interaction =
    | Answer(world: World, substate: Substate, response: Response)
    | Halt(world: World, substate: Substate, result: VmResult)
    | WantCall(world: World, substate: Substate, params: ActionParams)
    | WantCreate(world: World, substate: Substate, params: ActionParams, address: Address)

  /** The sender can pay what the action moves out of its public balance. */
  predicate Affordable(w: World, p: ActionParams) {
    p.value.Transfer? && !p.isInputPrivate ==> p.value.amount <= w.Balance(p.sender)
  }

  /** `Externalities::ret` behind `Finalize::finalize`. */
  function Finalize(env: Env, w: World, s: Substate, f: Frame, left: GasLeft): Interaction {
    match left
    case Known(gas) => Halt(w, s, Ok(FinalizationResult(gas, [], true)))
    case NeedsReturn(gas, data, apply) =>
      if !f.isCreate || !apply then
        Halt(w, s, Ok(FinalizationResult(gas, data, apply)))
      else if |data| * env.schedule.createDataGas > gas || |data| > env.schedule.createDataLimit then
        if env.schedule.exceptionalFailedCodeDeposit then
          Halt(w, s, Err(OutOfGas))
        else
          Halt(w, s, Ok(FinalizationResult(gas, data, apply)))
      else
        Halt(w.InitCode(f.params.address, data), s,
             Ok(FinalizationResult(gas - |data| * env.schedule.createDataGas, data, apply)))
  }

  function SuicideTo(env: Env, w: World, s: Substate, address: Address, refund: Address): Interaction {
    var balance := w.Balance(address);
    if address == refund then
      Answer(w.SubBalance(address, balance), s.(suicides := s.suicides + {address}), Unit)
    else
      var mode := env.schedule.CleanupMode();
      Answer(w.TransferBalance(address, refund, balance, mode),
             s.Touch(w.TouchedByTransfer(address, refund, balance, mode))
              .(suicides := s.suicides + {address}),
             Unit)
  }

  /** Parameters of a message call issued by frame `f`. A delegate call moves no value. */
  function CallParams(w: World, f: Frame, callType: CallOpcode, gas: nat, codeAddress: Address, amount: nat,
                      data: Bytes): ActionParams {
    ActionParams(
      codeAddress := codeAddress,
      address := if callType.CallCode? || callType.DelegateCall? then f.params.address else codeAddress,
      sender := if callType.DelegateCall? then f.params.sender else f.params.address,
      origin := f.params.origin,
      gas := gas,
      gasPrice := f.params.gasPrice,
      value := if callType.DelegateCall? then Apparent(f.params.value.amount)
               else if callType.StaticCall? then Transfer(0)
               else Transfer(amount),
      code := w.Code(codeAddress),
      data := Some(data),
      callType := callType,
      isInputPrivate := false,
      isOutputPrivate := false)
  }

  function CreateParams(f: Frame, address: Address, gas: nat, amount: nat, code: Bytes): ActionParams {
    ActionParams(
      codeAddress := address,
      address := address,
      sender := f.params.address,
      origin := f.params.origin,
      gas := gas,
      gasPrice := f.params.gasPrice,
      value := Transfer(amount),
      code := Some(code),
      data := None,
      callType := NoCall,
      isInputPrivate := false,
      isOutputPrivate := false)
  }

  /** The call instructions: the balance and depth guard of the interpreter, then `Externalities::call`. */
  function CallRequest(env: Env, w: World, s: Substate, f: Frame, callType: CallOpcode, gas: nat,
                       codeAddress: Address, amount: nat, data: Bytes): (r: Interaction)
    ensures r.WantCall? ==> f.depth < env.schedule.maxDepth && Affordable(r.world, r.params)
    ensures !r.WantCreate?
  {
    if callType.Call? && f.isStatic && amount != 0 then
      Halt(w, s, Err(MutableCallInStaticContext))
    else
      var hasBalance := callType.Call? || callType.CallCode? ==> amount <= w.Balance(f.params.address);
      if hasBalance && f.depth < env.schedule.maxDepth then
        WantCall(w, s, CallParams(w, f, callType, gas, codeAddress, amount, data))
      else
        Answer(w, s, CallNotPossible)
  }

  /** The create instructions: the interpreter's guards, then `Externalities::create`. */
  function CreateRequest(env: Env, w: World, s: Substate, f: Frame, gas: nat, amount: nat, code: Bytes,
                         scheme: CreateContractAddress): (r: Interaction)
    ensures r.WantCreate? ==>
              && f.depth < env.schedule.maxDepth && !f.isStatic
              && Affordable(r.world, r.params) && r.params.address == r.address
    ensures !r.WantCall?
  {
    if f.isStatic then
      Halt(w, s, Err(MutableCallInStaticContext))
    else if !(amount <= w.Balance(f.params.address) && f.depth < env.schedule.maxDepth) then
      Answer(w, s, CreateNotPossible)
    else
      var sender := f.params.address;
      var address := env.contractAddress(scheme, sender, w.Nonce(sender), code);
      var w' := if !env.schedule.keepUnsignedNonce || sender != UNSIGNED_SENDER then w.IncNonce(sender) else w;
      WantCreate(w', s, CreateParams(f, address, gas, amount, code), address)
  }

  /** The hash of one of the last 256 blocks, and zero for any other number. */
  function BlockHash(env: Env, number: nat): Hash {
    if number < env.blockNumber && Max(256, env.blockNumber) - 256 <= number
    then env.lastHash(env.blockNumber - number - 1)
    else 0
  }

  /** What a request of frame `f` does. */
  function Serve(env: Env, w: World, s: Substate, f: Frame, request: Request): (r: Interaction)
    ensures r.WantCall? || r.WantCreate? ==> f.depth < env.schedule.maxDepth && Affordable(r.world, r.params)
    ensures r.WantCreate? ==> !f.isStatic && r.params.address == r.address
    ensures request.Stop? || request.Fail? ==> r.Halt?
  {
    var address := f.params.address;
    match request
    case ReadStorage(key) => Answer(w, s, Number(w.StorageAt(address, key)))
    case ReadBalance(a) => Answer(w, s, Number(w.Balance(a)))
    case ReadExists(a) => Answer(w, s, Flag(w.Exists(a)))
    case ReadExistsAndNotNull(a) => Answer(w, s, Flag(w.Exists(a) && !w.accounts[a].IsNull()))
    case ReadOriginBalance => Answer(w, s, Number(w.Balance(address)))
    case ReadCode(a) => Answer(w, s, CodeOf(w.Code(a)))
    case ReadCodeHash(a) => Answer(w, s, HashOf(if w.Exists(a) then Some(env.codeHash(w.accounts[a].code)) else None))
    case ReadCodeSize(a) => Answer(w, s, SizeOf(if w.Exists(a) then Some(|w.accounts[a].code|) else None))
    case ReadBlockHash(number) => Answer(w, s, HashOf(Some(BlockHash(env, number))))
    case ReadIsStatic => Answer(w, s, Flag(f.isStatic))
    case SetStorage(key, value) =>
      if f.isStatic then Halt(w, s, Err(MutableCallInStaticContext))
      else Answer(w.SetStorage(address, key, value), s, Unit)
    case Log(topics, data) =>
      if f.isStatic then Halt(w, s, Err(MutableCallInStaticContext))
      else Answer(w, s.(logs := s.logs + [LogEntry(address, topics, data)]), Unit)
    case Suicide(refund) =>
      if f.isStatic then Halt(w, s, Err(MutableCallInStaticContext))
      else SuicideTo(env, w, s, address, refund)
    case AddSstoreRefund(n) => Answer(w, s.(sstoreClearsRefund := s.sstoreClearsRefund + n), Unit)
    case SubSstoreRefund(n) => Answer(w, s.(sstoreClearsRefund := s.sstoreClearsRefund - n), Unit)
    case CallInstruction(callType, gas, codeAddress, amount, data) =>
      CallRequest(env, w, s, f, callType, gas, codeAddress, amount, data)
    case CreateInstruction(gas, amount, code, scheme) =>
      CreateRequest(env, w, s, f, gas, amount, code, scheme)
    case Stop(left) => Finalize(env, w, s, f, left)
    case Fail(error) => Halt(w, s, Err(error))
  }

  /** The next request of frame `f`, served. */
  function Interact(env: Env, w: World, s: Substate, f: Frame): (r: Interaction)
    ensures r.WantCall? || r.WantCreate? ==> f.depth < env.schedule.maxDepth && Affordable(r.world, r.params)
    ensures r.WantCreate? ==> !f.isStatic && r.params.address == r.address
    ensures env.Terminating() && !r.Halt? ==> |f.history| < env.stepBound(f.params)
  {
    Serve(env, w, s, f, env.nextRequest(f.params, f.depth, f.history))
  }

  /** A virtual machine with the account state and the substate it is working on. */
  datatype Running = Running(world: World, substate: Substate, frame: Frame)

  /** `Exec::exec` of a virtual machine whose nested actions trap: answers requests up to the one
      that ends the run or asks for a nested action. */
  function RunToTrap(env: Env, w: World, s: Substate, f: Frame): (r: Running)
    requires env.Terminating()
    ensures !Interact(env, r.world, r.substate, r.frame).Answer?
    ensures r.frame.(history := []) == f.(history := [])
    decreases StepsLeft(env, f)
  {
    var i := Interact(env, w, s, f);
    if i.Answer? then RunToTrap(env, i.world, i.substate, f.Answered(i.response)) else Running(w, s, f)
  }

  // ----- in place

  /** The externalities of one frame, over the state and the unconfirmed substate that it borrows. */
  class FrameExternalities {
    var world: World
    var substate: Substate
    var frame: Frame
    const env: Env

    constructor (env: Env, frame: Frame, w: World, s: Substate)
      ensures this.env == env && this.frame == frame && world == w && substate == s
    {
      this.env, this.frame := env, frame;
      world, substate := w, s;
    }

    ghost function Served(request: Request): Interaction
      reads this
    {
      Serve(env, world, substate, frame, request)
    }

    /** The interaction that left the state as it is now. */
    ghost function Reply(error: Option<VmError>): Interaction
      reads this
    {
      if error.None? then Answer(world, substate, Unit) else Halt(world, substate, Err(error.value))
    }

    method SetStorage(key: Word, value: Word) returns (error: Option<VmError>)
      modifies this`world, this`substate
      ensures Reply(error) == old(Served(Request.SetStorage(key, value)))
    {
      if frame.isStatic {
        return Some(MutableCallInStaticContext);
      }
      world := world.SetStorage(frame.params.address, key, value);
      error := None;
    }

    method Log(topics: seq<Word>, data: Bytes) returns (error: Option<VmError>)
      modifies this`world, this`substate
      ensures Reply(error) == old(Served(Request.Log(topics, data)))
    {
      if frame.isStatic {
        return Some(MutableCallInStaticContext);
      }
      substate := substate.(logs := substate.logs + [LogEntry(frame.params.address, topics, data)]);
      error := None;
    }

    method Suicide(refundAddress: Address) returns (error: Option<VmError>)
      modifies this`world, this`substate
      ensures Reply(error) == old(Served(Request.Suicide(refundAddress)))
    {
      if frame.isStatic {
        return Some(MutableCallInStaticContext);
      }
      var address := frame.params.address;
      var balance := world.Balance(address);
      if address == refundAddress {
        world := world.SubBalance(address, balance);
      } else {
        var mode := env.schedule.CleanupMode();
        substate := substate.Touch(world.TouchedByTransfer(address, refundAddress, balance, mode));
        world := world.TransferBalance(address, refundAddress, balance, mode);
      }
      substate := substate.(suicides := substate.suicides + {address});
      error := None;
    }

    method AddSstoreRefund(value: nat)
      modifies this`world, this`substate
      ensures Reply(None) == old(Served(Request.AddSstoreRefund(value)))
    {
      substate := substate.(sstoreClearsRefund := substate.sstoreClearsRefund + value);
    }

    method SubSstoreRefund(value: nat)
      modifies this`world, this`substate
      ensures Reply(None) == old(Served(Request.SubSstoreRefund(value)))
    {
      substate := substate.(sstoreClearsRefund := substate.sstoreClearsRefund - value);
    }

    /** Ends the frame: a contract creation that keeps its state pays for and stores its code. */
    method Ret(gas: nat, data: Bytes, applyState: bool) returns (result: VmResult)
      modifies this`world, this`substate
      ensures Halt(world, substate, result) == old(Served(Stop(NeedsReturn(gas, data, applyState))))
    {
      if !frame.isCreate || !applyState {
        return Ok(FinalizationResult(gas, data, applyState));
      }
      var returnCost := |data| * env.schedule.createDataGas;
      if returnCost > gas || |data| > env.schedule.createDataLimit {
        return if env.schedule.exceptionalFailedCodeDeposit then Err(OutOfGas)
               else Ok(FinalizationResult(gas, data, applyState));
      }
      world := world.InitCode(frame.params.address, data);
      result := Ok(FinalizationResult(gas - returnCost, data, applyState));
    }

    /** Asks for a nested create; the guards are the interpreter's. A static frame keeps its nonce. */
    method Create(gas: nat, amount: nat, code: Bytes, scheme: CreateContractAddress)
      returns (params: ActionParams, address: Address)
      modifies this`world, this`substate
      ensures frame.isStatic ==> world == old(world)
      ensures !frame.isStatic && amount <= old(world).Balance(frame.params.address)
              && frame.depth < env.schedule.maxDepth ==>
                WantCreate(world, substate, params, address)
                  == old(Served(CreateInstruction(gas, amount, code, scheme)))
    {
      var sender := frame.params.address;
      address := env.contractAddress(scheme, sender, world.Nonce(sender), code);
      params := CreateParams(frame, address, gas, amount, code);
      if !frame.isStatic {
        if !env.schedule.keepUnsignedNonce || sender != UNSIGNED_SENDER {
          world := world.IncNonce(sender);
        }
      }
    }

    /** Asks for a nested call; the guards are the interpreter's. */
    method Call(callType: CallOpcode, gas: nat, codeAddress: Address, amount: nat, data: Bytes)
      returns (params: ActionParams)
      ensures params == CallParams(world, frame, callType, gas, codeAddress, amount, data)
    {
      var delegated := callType.DelegateCall?;
      params := ActionParams(
        codeAddress := codeAddress,
        address := if callType.CallCode? || delegated then frame.params.address else codeAddress,
        sender := if delegated then frame.params.sender else frame.params.address,
        origin := frame.params.origin,
        gas := gas,
        gasPrice := frame.params.gasPrice,
        value := Apparent(frame.params.value.amount),
        code := world.Code(codeAddress),
        data := Some(data),
        callType := callType,
        isInputPrivate := false,
        isOutputPrivate := false);
      if !delegated {
        params := params.(value := Transfer(if callType.StaticCall? then 0 else amount));
      }
    }

    /** Serves one request of the machine, with the guards of the interpreter in front of calls and
        creates. */
    method Dispatch(request: Request) returns (i: Interaction)
      modifies this`world, this`substate
      ensures i == old(Served(request)) && i.world == world && i.substate == substate
    {
      var error := None;
      match request {
        case SetStorage(key, value) => error := SetStorage(key, value);
        case Log(topics, data) => error := Log(topics, data);
        case Suicide(refund) => error := Suicide(refund);
        case AddSstoreRefund(n) => AddSstoreRefund(n);
        case SubSstoreRefund(n) => SubSstoreRefund(n);
        case CallInstruction(callType, gas, codeAddress, amount, data) =>
          if callType.Call? && frame.isStatic && amount != 0 {
            return Halt(world, substate, Err(MutableCallInStaticContext));
          }
          var hasBalance := callType.Call? || callType.CallCode? ==> amount <= world.Balance(frame.params.address);
          if !hasBalance || frame.depth >= env.schedule.maxDepth {
            return Answer(world, substate, CallNotPossible);
          }
          var params := Call(callType, gas, codeAddress, amount, data);
          return WantCall(world, substate, params);
        case CreateInstruction(gas, amount, code, scheme) =>
          if frame.isStatic {
            return Halt(world, substate, Err(MutableCallInStaticContext));
          }
          if amount > world.Balance(frame.params.address) || frame.depth >= env.schedule.maxDepth {
            return Answer(world, substate, CreateNotPossible);
          }
          var params, address := Create(gas, amount, code, scheme);
          return WantCreate(world, substate, params, address);
        case Stop(NeedsReturn(gas, data, applyState)) =>
          var result := Ret(gas, data, applyState);
          return Halt(world, substate, result);
        case _ =>
          return Serve(env, world, substate, frame, request);
      }
      i := if error.None? then Answer(world, substate, Unit) else Halt(world, substate, Err(error.value));
    }

    /** Runs the machine, request by request, until it ends or asks for a nested action. */
    method Run() returns (i: Interaction)
      requires env.Terminating()
      modifies this
      ensures var last := RunToTrap(env, old(world), old(substate), old(frame));
              && i == Interact(env, last.world, last.substate, last.frame)
              && frame == last.frame && world == i.world && substate == i.substate
    {
      hide Serve;
      while true
        invariant RunToTrap(env, world, substate, frame) == RunToTrap(env, old(world), old(substate), old(frame))
        decreases StepsLeft(env, frame)
      {
        i := Dispatch(env.nextRequest(frame.params, frame.depth, frame.history));
        if !i.Answer? {
          return;
        }
        frame := frame.Answered(i.response);
      }
    }
  }
}
