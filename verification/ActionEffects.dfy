/** What single steps of an action do to the accounts: payments, endowments, code deposits, builtins,
    suicides, and what the machine is told. */
module ActionEffects {
  import opened Primitives
  import opened WorldState
  import opened Externalities
  import opened Executive
  import CallTree
  import opened CallEvents

  // ----- payments

  /** What an action with value takes from and gives to the public balance of an account. */
  function Paid(p: ActionParams, a: Address): nat {
    if p.value.Transfer? && a == p.sender && !p.isInputPrivate then p.value.amount else 0
  }

  function Received(p: ActionParams, a: Address): nat {
    if p.value.Transfer? && a == p.address && !p.isOutputPrivate then p.value.amount else 0
  }

  /** The accounts differ in nothing but the balance, and in nothing at all away from sender and recipient. */
  ghost predicate OnlyMoves(w: World, w': World, p: ActionParams, a: Address) {
    && Read(w', a) == Read(w, a).(balance := w'.Balance(a))
    && (a != p.sender && a != p.address ==> Get(w'.accounts, a) == Get(w.accounts, a))
  }

  /** A payment lowers the sender and raises the recipient by the amount, unless that side is private, and
      leaves every other account alone; the balance of the recipient saturates. */
  lemma TransferMoves(env: Env, w: World, s: Substate, p: ActionParams, a: Address)
    requires Affordable(w, p)
    ensures var w' := TransferExecBalance(env, w, s, p).0;
            w'.Balance(a) == Min(w.Balance(a) - Paid(p, a) + Received(p, a), MAX_U256) && OnlyMoves(w, w', p, a)
  {
  }

  /** A call without code moves its value, uses no gas and succeeds, unless it pays out of a static frame. */
  lemma SettledTransfer(env: Env, w: World, s: Substate, e: CallCreateExecutive, a: Address)
    requires env.Terminating() && e.Fresh() && e.kind.Transfer? && Affordable(w, e.kind.params)
    ensures var o, p := Direct(env, w, s, e), e.kind.params;
            if e.isStatic && (p.callType.Call? || p.callType.StaticCall?) && p.value.amount > 0 then
              o.result == Err(MutableCallInStaticContext) && o.world == w
            else
              && o.result == Ok(FinalizationResult(e.gas, [], true))
              && o.world.Balance(a) == Min(w.Balance(a) - Paid(p, a) + Received(p, a), MAX_U256)
              && OnlyMoves(w, o.world, p, a)
  {
    hide TransferExecBalance, OnlyMoves;
    TransferMoves(env, w, s, e.kind.params, a);
  }

  /** Paying nothing to a missing account creates it before EIP-161 only; an existing account that is paid
      nothing is remembered as touched when empty accounts or dust are cleaned. */
  lemma EmptyPayment(env: Env, w: World, s: Substate, p: ActionParams)
    requires p.value == ActionValue.Transfer(0) && !p.isInputPrivate && !p.isOutputPrivate && p.sender != p.address
    ensures var schedule := env.schedule;
            var (w', s') := TransferExecBalance(env, w, s, p);
            && (!w.Exists(p.address) ==>
                 (w'.Exists(p.address) <==> !schedule.noEmpty && schedule.killDust == Off))
            && (w.Exists(p.address) && p.address !in s.touched ==>
                 (p.address in s'.touched <==>
                   schedule.killDust != Off || (schedule.noEmpty && schedule.killEmpty)))
  {
  }

  // ----- creations

  /** A new contract starts with the old balance of its address and the endowment, a fresh nonce, and
      neither code nor storage; the endowment comes from the sender, and nothing else changes. */
  lemma EndowmentMoves(env: Env, w: World, s: Substate, p: ActionParams, a: Address)
    requires Affordable(w, p) && p.sender != p.address
    ensures var w' := TransferExecBalanceAndInitContract(env, w, s, p).0;
            var endowment := if p.value.Transfer? then p.value.amount else 0;
            && (a == p.address ==>
                 Read(w', a) == Reading(Min(w.Balance(a) + endowment, MAX_U256),
                                        w.startNonce + (if env.schedule.noEmpty then 1 else 0), [], map[]))
            && (a != p.address ==>
                 && w'.Balance(a) == w.Balance(a) - Paid(p, a)
                 && Read(w', a) == Read(w, a).(balance := w'.Balance(a))
                 && (a != p.sender ==> Get(w'.accounts, a) == Get(w.accounts, a)))
  {
  }

  /** A contract is created only where there is no code and no nonce, and outside static frames. */
  lemma CreationNeedsFreeAddress(env: Env, w: World, s: Substate, e: CallCreateExecutive)
    requires env.Terminating() && e.Fresh() && e.isCreate && Affordable(w, e.kind.params)
    ensures var o, address := Direct(env, w, s, e), e.kind.params.address;
            if w.Exists(address) && (w.Code(address) != Some([]) || w.Nonce(address) != w.startNonce) then
              o.result == Err(OutOfGas) && o.world == w
            else if e.isStatic then o.result == Err(MutableCallInStaticContext) && o.world == w
            else Prepare(env, w, s, e).Started?
  {
    hide DirectFrame;
  }

  /** The end of a creation: the code is stored and paid for by the byte, or it is too dear or too long and
      nothing is stored, which fails the creation unless the schedule forgives it. */
  lemma CreationDepositsCode(env: Env, w: World, s: Substate, f: Frame, gas: nat, data: Bytes)
    requires f.isCreate
    ensures var i := Finalize(env, w, s, f, NeedsReturn(gas, data, true));
            var price := |data| * env.schedule.createDataGas;
            && i.Halt? && i.substate == s
            && if price <= gas && |data| <= env.schedule.createDataLimit then
                 && i.result.Ok? && i.result.value.applyState && i.result.value.gasLeft + price == gas
                 && i.world.Code(f.params.address) == Some(data)
                 && Read(i.world, f.params.address) == Read(w, f.params.address).(code := data)
                 && i.world.accounts - {f.params.address} == w.accounts - {f.params.address}
               else
                 && i.world == w
                 && (if env.schedule.exceptionalFailedCodeDeposit then i.result == Err(OutOfGas)
                     else i.result.Ok? && i.result.value.applyState && i.result.value.gasLeft == gas)
  {
    hide *;
    FinalizeDeposit(env, w, s, f, gas, data);
    InitCodeReads(w, f.params.address, data);
  }

  lemma FinalizeDeposit(env: Env, w: World, s: Substate, f: Frame, gas: nat, data: Bytes)
    requires f.isCreate
    ensures var i := Finalize(env, w, s, f, NeedsReturn(gas, data, true));
            var price := |data| * env.schedule.createDataGas;
            && i.Halt? && i.substate == s
            && if price <= gas && |data| <= env.schedule.createDataLimit then
                 && i.result.Ok? && i.result.value.applyState && i.result.value.gasLeft + price == gas
                 && i.world == w.InitCode(f.params.address, data)
               else
                 && i.world == w
                 && (if env.schedule.exceptionalFailedCodeDeposit then i.result == Err(OutOfGas)
                     else i.result.Ok? && i.result.value.applyState && i.result.value.gasLeft == gas)
  {
  }

  lemma InitCodeReads(w: World, a: Address, code: Bytes)
    ensures var w' := w.InitCode(a, code);
            && w'.Code(a) == Some(code) && Read(w', a) == Read(w, a).(code := code)
            && w'.accounts - {a} == w.accounts - {a}
  {
    assert (w.InitCode(a, code).accounts - {a}).Keys == (w.accounts - {a}).Keys;
  }

  /** Only a creation that keeps its state stores code: every other end of a frame leaves the accounts and
      hands its gas and data on. */
  lemma OtherEndsKeepWorld(env: Env, w: World, s: Substate, f: Frame, left: GasLeft)
    requires !(f.isCreate && left.NeedsReturn? && left.applyState)
    ensures Finalize(env, w, s, f, left)
            == Halt(w, s, Ok(FinalizationResult(left.gasLeft, if left.Known? then [] else left.data,
                                                left.Known? || left.applyState)))
  {
  }

  // ----- builtins

  /** A builtin costs its price and answers, or fails for lack of gas or on its input; only when it answers
      does the value of the call move. */
  lemma BuiltinRuns(env: Env, w: World, s: Substate, e: CallCreateExecutive, a: Address)
    requires env.Terminating() && e.Fresh() && e.kind.CallBuiltin? && Affordable(w, e.kind.params)
    requires BuiltinKnown(env, e) && !StaticViolation(e.kind.params, e.isStatic, e.isCreate)
    ensures var o, p := Direct(env, w, s, e), e.kind.params;
            var builtin := env.builtin(p.codeAddress).value;
            var data := if p.data.Some? then p.data.value else [];
            if builtin.cost(data) > e.gas then o.result == Err(OutOfGas) && o.world == w
            else if builtin.execute(data).None? then o.result == Err(BuiltIn) && o.world == w
            else
              && o.result.Ok? && o.result.value.applyState
              && o.result.value.returnData == builtin.execute(data).value
              && o.result.value.gasLeft + builtin.cost(data) == e.gas
              && o.world.snapshots == w.snapshots
              && o.world.Balance(a) == Min(w.Balance(a) - Paid(p, a) + Received(p, a), MAX_U256)
              && OnlyMoves(w, o.world, p, a)
  {
    var w' := w.Checkpoint();
    TransferMoves(env, w', s, e.kind.params, a);
    CallTree.TransferCheckpoints(env, w', s, e.kind.params);
    assert w'.snapshots[..|w.snapshots|] == w.snapshots;
    hide TransferExecBalance;
  }

  // ----- machines

  /** An action that starts a machine and is not rejected leaves the accounts as its machine left them. */
  lemma AcceptedKeepsChanges(env: Env, w: World, s: Substate, e: CallCreateExecutive)
    requires env.Terminating()
    requires e.Fresh() && Affordable(w, e.kind.params) && BuiltinKnown(env, e)
    requires Prepare(env, w, s, e).Started? && !Rejects(Direct(env, w, s, e).result)
    ensures var o, p := Direct(env, w, s, e), Prepare(env, w, s, e);
            var m := DirectFrame(env, p.world, NEW_SUBSTATE, p.frame);
            o.result == m.result && o.world.accounts == m.world.accounts
  {
    hide Prepare, DirectFrame;
  }

  /** What the caller's machine learns about a nested action: whether it ended well, reverted or failed, and
      in the first two cases its gas and its data. */
  lemma AnswersTellTheResult(r: VmResult, address: Address, s: Substate)
    ensures var m := IntoMessageCallResult(r);
            && (m.CallSuccess? <==> Accepts(r)) && (m.CallFailed? <==> r.Err?)
            && (r.Ok? ==> m.gasLeft == r.value.gasLeft && m.data == r.value.returnData)
    ensures var c := IntoContractCreateResult(r, address, s).0;
            && (c.Created? <==> Accepts(r)) && (c.CreateFailed? <==> r.Err?)
            && (c.Created? ==> c.address == address)
            && (r.Ok? ==> c.gasLeft == r.value.gasLeft)
            && (c.CreateReverted? ==> c.data == r.value.returnData)
  {
  }

  /** A suicide empties the account, pays everything to the beneficiary, or to nobody when that is the
      account itself, and is remembered. */
  lemma SuicideMoves(env: Env, w: World, s: Substate, address: Address, refund: Address, a: Address)
    ensures var i := SuicideTo(env, w, s, address, refund);
            && i.world.Balance(a) == (if a == address then 0
                                      else if a == refund then Min(w.Balance(a) + w.Balance(address), MAX_U256)
                                      else w.Balance(a))
            && Read(i.world, a) == Read(w, a).(balance := i.world.Balance(a))
            && (a != address && a != refund ==> Get(i.world.accounts, a) == Get(w.accounts, a))
            && i.substate.suicides == s.suicides + {address}
  {
  }

  // ----- nested actions

  /** A call is made if and only if nothing stands against it; it is refused inside the machine for lack of
      balance or depth, and ends the machine when it would pay out of a static frame. */
  lemma CallIsMadeIff(env: Env, w: World, s: Substate, f: Frame, callType: CallOpcode, gas: nat, to: Address,
                      amount: nat, data: Bytes)
    ensures var i := CallRequest(env, w, s, f, callType, gas, to, amount, data);
            var pays := callType.Call? || callType.CallCode?;
            && i.world == w && i.substate == s
            && (i.Halt? <==> callType.Call? && f.isStatic && amount > 0)
            && (i.Halt? ==> i.result == Err(MutableCallInStaticContext))
            && (!i.Halt? ==> (i.WantCall? <==> f.depth < env.schedule.maxDepth
                                               && (pays ==> amount <= w.Balance(f.params.address))))
            && (i.Answer? ==> i.response == CallNotPossible)
  {
  }

  /** A creation takes the address that belongs to the sender's nonce and uses that nonce up; the next one
      finds a higher nonce. */
  lemma CreationTakesNonce(env: Env, w: World, s: Substate, f: Frame, gas: nat, amount: nat, code: Bytes,
                           scheme: CreateContractAddress)
    ensures var i, sender := CreateRequest(env, w, s, f, gas, amount, code, scheme), f.params.address;
            && i.substate == s
            && (i.Halt? <==> f.isStatic)
            && (!f.isStatic ==> (i.WantCreate? <==> amount <= w.Balance(sender) && f.depth < env.schedule.maxDepth))
            && (!i.WantCreate? ==> i.world == w)
            && (i.WantCreate? ==>
                 && i.address == env.contractAddress(scheme, sender, w.Nonce(sender), code)
                 && i.world.accounts - {sender} == w.accounts - {sender}
                 && Read(i.world, sender) == Read(w, sender).(nonce := i.world.Nonce(sender))
                 && (if env.schedule.keepUnsignedNonce && sender == UNSIGNED_SENDER then i.world == w
                     else i.world.Nonce(sender) == Min(w.Nonce(sender) + 1, MAX_U256)))
  {
    var sender := f.params.address;
    assert (w.IncNonce(sender).accounts - {sender}).Keys == (w.accounts - {sender}).Keys;
  }

  // ----- reading

  /** The machine reads back what it wrote, under the key it wrote and nowhere else. */
  lemma StorageReadsBack(env: Env, w: World, s: Substate, f: Frame, key: Word, value: Word, other: Word, a: Address)
    requires !f.isStatic
    ensures var i := Serve(env, w, s, f, SetStorage(key, value));
            && i.Answer? && i.substate == s
            && Serve(env, i.world, s, f, ReadStorage(key)).response == Number(value)
            && (other != key ==>
                 Serve(env, i.world, s, f, ReadStorage(other)).response
                 == Serve(env, w, s, f, ReadStorage(other)).response)
            && (a != f.params.address ==> Get(i.world.accounts, a) == Get(w.accounts, a))
            && Read(i.world, a) == Read(w, a).(storage := Read(i.world, a).storage)
  {
  }

  /** The reading requests agree with each other and with the account. */
  lemma ReadsAgree(env: Env, w: World, s: Substate, f: Frame, a: Address)
    ensures var code := Serve(env, w, s, f, ReadCode(a)).response.code;
            && Serve(env, w, s, f, ReadExists(a)).response == Flag(code.Some?)
            && Serve(env, w, s, f, ReadCodeSize(a)).response == SizeOf(if code.Some? then Some(|code.value|) else None)
            && Serve(env, w, s, f, ReadCodeHash(a)).response
               == HashOf(if code.Some? then Some(env.codeHash(code.value)) else None)
            && (code.Some? ==> code.value == Read(w, a).code)
    ensures Serve(env, w, s, f, ReadBalance(a)).response == Number(Read(w, a).balance)
    ensures Serve(env, w, s, f, ReadOriginBalance) == Serve(env, w, s, f, ReadBalance(f.params.address))
    ensures Serve(env, w, s, f, ReadExistsAndNotNull(a)).response.b
            <==> Get(w.accounts, a).Some?
                 && !(Read(w, a).balance == 0 && Read(w, a).nonce == 0 && Read(w, a).code == [])
    ensures Serve(env, w, s, f, ReadIsStatic).response.b <==> Serve(env, w, s, f, Request.Log([], [])).Halt?
  {
  }

  /** The hash of the block `back` blocks before this one is given for the last 256 blocks and no others. */
  lemma BlockHashWindow(env: Env, back: nat)
    requires back <= env.blockNumber
    ensures BlockHash(env, env.blockNumber - back) == if 1 <= back <= 256 then env.lastHash(back - 1) else 0
    ensures forall number: nat | number >= env.blockNumber :: BlockHash(env, number) == 0
  {
  }
}
