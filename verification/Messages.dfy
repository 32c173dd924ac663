/** The parameters of nested actions, told by those of transactions and of each other. */
module Messages {
  import opened Primitives
  import opened WorldState
  import opened Externalities
  import opened Executive
  import opened Transact

  /** A call from a frame is what a transaction from the frame's account to the same recipient, with the same
      value and data, leads to; only the origin and the gas price are those of the frame. */
  lemma CallIsLikeTransaction(c: Context, w: World, t: Transaction, nonce: nat, f: Frame)
    requires t.action.Call? && t.sender == f.params.address && GasRequired(t, c.env.schedule) <= t.gas
    ensures var top := TopAction(c, w, t, nonce);
            CallParams(w, f, CallType.Call, top.gas, t.action.address, t.value, t.data)
            == top.kind.params.(origin := f.params.origin, gasPrice := f.params.gasPrice)
  {
    hide GasRequired;
  }

  /** A creation from a frame is what a creating transaction from the frame's account leads to when the sender
      has the same nonce; its address is the same. */
  lemma CreateIsLikeTransaction(c: Context, w: World, t: Transaction, s: Substate, f: Frame)
    requires t.action.Create? && t.sender == f.params.address && GasRequired(t, c.env.schedule) <= t.gas
    ensures var top := TopAction(c, w, t, w.Nonce(t.sender));
            var i := CreateRequest(c.env, w, s, f, top.gas, t.value, t.data, c.scheme);
            i.WantCreate? ==>
              && i.params == top.kind.params.(origin := f.params.origin, gasPrice := f.params.gasPrice)
              && i.address == top.kind.params.address
  {
    hide GasRequired;
  }

  /** The action calls `to`: it acts on that account and runs its code on the data. */
  predicate Calls(p: ActionParams, w: World, to: Address, data: Bytes) {
    p.address == to && p.code == w.Code(to) && p.data == Some(data) && p.callType.Call?
  }

  /** What the five kinds of transactions start: who pays whom, whose code runs, and what is private. */
  lemma TransactionsStart(c: Context, w: World, t: Transaction, nonce: nat)
    requires GasRequired(t, c.env.schedule) <= t.gas
    ensures var p := TopAction(c, w, t, nonce).kind.params;
            var private := PRIVATE_EXECUTIVE_ADDRESS;
            && p.gas == t.gas - GasRequired(t, c.env.schedule) && p.gasPrice == t.gasPrice
            && p.value == ActionValue.Transfer(t.value) && p.origin == p.sender
            && p.codeAddress == p.address
            && p.sender == (if t.action.PrivateToPrivate? || t.action.PrivateCall? then private else t.sender)
            && (p.isInputPrivate <==> t.action.PrivateToPrivate? || t.action.PrivateCall?)
            && (p.isOutputPrivate <==> t.action.PrivateToPrivate? || t.action.PublicToPrivate?)
            && match t.action
               case Create => p.address == c.env.contractAddress(c.scheme, t.sender, nonce, t.data)
                              && p.code == Some(t.data) && p.data == None && p.callType == NoCall
               case Call(to) => Calls(p, w, to, t.data)
               case PrivateCall(to) => Calls(p, w, to, t.data)
               case _ => Calls(p, w, private, t.data)
  {
    hide GasRequired;
  }

  /** A nested call runs the code that reading the called account shows. */
  lemma CallRunsCodeOfCallee(env: Env, w: World, s: Substate, f: Frame, callType: CallOpcode, gas: nat, to: Address,
                             amount: nat, data: Bytes)
    ensures var i := Serve(env, w, s, f, CallInstruction(callType, gas, to, amount, data));
            i.WantCall? ==>
              && CodeOf(i.params.code) == Serve(env, w, s, f, ReadCode(to)).response
              && i.params.codeAddress == to && i.params.data == Some(data) && i.params.gas == gas
              && i.params.callType == callType
  {
  }

  /** CALLCODE is CALL on the caller's own account, with the code of the callee. */
  lemma CallCodeIsCallAtHome(w: World, f: Frame, gas: nat, to: Address, amount: nat, data: Bytes)
    ensures CallParams(w, f, CallCode, gas, to, amount, data)
            == CallParams(w, f, CallType.Call, gas, to, amount, data)
               .(address := f.params.address, callType := CallCode)
  {
  }

  /** STATICCALL is CALL without value. */
  lemma StaticCallIsCallWithoutValue(w: World, f: Frame, gas: nat, to: Address, amount: nat, data: Bytes)
    ensures CallParams(w, f, StaticCall, gas, to, amount, data)
            == CallParams(w, f, CallType.Call, gas, to, 0, data).(callType := StaticCall)
  {
  }

  /** DELEGATECALL goes on as the caller itself was called, by the same sender and with the same apparent value,
      with the code, the gas and the data of the call. */
  lemma DelegateCallKeepsCaller(w: World, f: Frame, gas: nat, to: Address, amount: nat, data: Bytes)
    requires !f.params.isInputPrivate && !f.params.isOutputPrivate
    ensures var call := CallParams(w, f, CallType.Call, gas, to, amount, data);
            CallParams(w, f, DelegateCall, gas, to, amount, data)
            == f.params.(codeAddress := to, code := call.code, gas := gas, data := Some(data), callType := DelegateCall,
                         value := Apparent(f.params.value.amount))
  {
  }

  /** A delegate call out of a private frame is public; all else is as in a public frame. */
  lemma DelegateCallIsPublic(w: World, f: Frame, gas: nat, to: Address, amount: nat, data: Bytes)
    ensures var f' := f.(params := f.params.(isInputPrivate := false, isOutputPrivate := false));
            CallParams(w, f, DelegateCall, gas, to, amount, data)
            == CallParams(w, f', DelegateCall, gas, to, amount, data)
  {
  }
}
