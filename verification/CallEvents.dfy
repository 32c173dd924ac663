/** What a call tree reports to its transaction: logs, refunds, new and destroyed contracts and touched
    accounts, each at its place. */
module CallEvents {
  import opened Primitives
  import opened WorldState
  import opened Externalities
  import opened Executive
  import opened CallTree

  datatype CallEvent =
    | Logged(entry: LogEntry)
    | RefundChanged(delta: int)
    | Deployed(address: Address)
    | Destroyed(address: Address)
    | Touched(addresses: set<Address>)

  /** The substate after one more event. */
  function Note(s: Substate, e: CallEvent): Substate {
    match e
    case Logged(entry) => s.(logs := s.logs + [entry])
    case RefundChanged(delta) => s.(sstoreClearsRefund := s.sstoreClearsRefund + delta)
    case Deployed(address) => s.(contractsCreated := s.contractsCreated + [address])
    case Destroyed(address) => s.(suicides := s.suicides + {address})
    case Touched(addresses) => s.(touched := s.touched + addresses)
  }

  function Replay(s: Substate, events: seq<CallEvent>): Substate
    decreases |events|
  {
    if events == [] then s else Note(Replay(s, events[..|events| - 1]), events[|events| - 1])
  }

  // ----- the events of a call tree

  /** What the next request of a frame reports. */
  function RequestEvents(env: Env, w: World, f: Frame): seq<CallEvent> {
    var address := f.params.address;
    match env.nextRequest(f.params, f.depth, f.history)
    case Log(topics, data) => if f.isStatic then [] else [Logged(LogEntry(address, topics, data))]
    case AddSstoreRefund(n) => [RefundChanged(n)]
    case SubSstoreRefund(n) => [RefundChanged(-(n as int))]
    case Suicide(refund) =>
      if f.isStatic then []
      else
        var touched := if refund == address then {}
                       else w.TouchedByTransfer(address, refund, w.Balance(address), env.schedule.CleanupMode());
        [Touched(touched), Destroyed(address)]
    case _ => []
  }

  /** The accounts that moving the value of an action touches, before anything runs. */
  function PrologueTouches(env: Env, w: World, e: CallCreateExecutive): set<Address>
    requires e.Fresh() && Affordable(w, e.kind.params) && BuiltinKnown(env, e)
  {
    Prepare(env, w, NEW_SUBSTATE, e).substate.touched
  }

  /** An action touches accounts, and unless it is rejected reports what its machine reports. */
  ghost function ActionEvents(env: Env, w: World, s: Substate, e: CallCreateExecutive): seq<CallEvent>
    requires env.Terminating()
    requires e.Fresh() && Affordable(w, e.kind.params) && BuiltinKnown(env, e)
    decreases DepthLeft(env, e.depth), 1, 0
  {
    [Touched(PrologueTouches(env, w, e))] +
    match Prepare(env, w, s, e)
    case Settled(_, _, _) => []
    case Started(w', _, f) =>
      if Rejects(DirectFrame(env, w', e.kind.unconfirmed, f).result) then []
      else FrameEvents(env, w', e.kind.unconfirmed, f)
  }

  /** Requests and nested actions report in their order; a create adds the contract that it deployed. */
  ghost function FrameEvents(env: Env, w: World, s: Substate, f: Frame): seq<CallEvent>
    requires env.Terminating()
    decreases DepthLeft(env, f.depth), 0, StepsLeft(env, f)
  {
    RequestEvents(env, w, f) +
    match Interact(env, w, s, f)
    case Answer(w', s', r) => FrameEvents(env, w', s', f.Answered(r))
    case Halt(_, _, _) => []
    case WantCall(w', s', p) =>
      var e := NewCallRaw(env, p, f.depth + 1, f.isStatic);
      var o := Direct(env, w', s', e);
      ActionEvents(env, w', s', e)
      + FrameEvents(env, o.world, o.substate, f.Answered(CallResponse(IntoMessageCallResult(o.result))))
    case WantCreate(w', s', p, address) =>
      var e := NewCreateRaw(p, f.depth + 1, f.isStatic);
      var o := Direct(env, w', s', e);
      var (c, s'') := IntoContractCreateResult(o.result, address, o.substate);
      ActionEvents(env, w', s', e)
      + (if Accepts(o.result) then [Deployed(address)] else [])
      + FrameEvents(env, o.world, s'', f.Answered(CreateResponse(c)))
  }

  /** The action ended well and keeps its changes. */
  predicate Accepts(r: VmResult) {
    r.Ok? && r.value.applyState
  }

  // ----- replaying

  lemma {:induction false} ReplayAppend(s: Substate, a: seq<CallEvent>, b: seq<CallEvent>)
    ensures Replay(s, a + b) == Replay(Replay(s, a), b)
    decreases |b|
  {
    if b == [] {
      assert a + b == a;
    } else {
      var n := |b| - 1;
      assert (a + b)[..|a| + n] == a + b[..n];
      ReplayAppend(s, a, b[..n]);
    }
  }

  lemma {:induction false} ReplayAccrues(s: Substate, events: seq<CallEvent>)
    ensures s.Accrue(Replay(NEW_SUBSTATE, events)) == Replay(s, events)
    decreases |events|
  {
    if events == [] {
      assert s.Accrue(NEW_SUBSTATE) == s;
    } else {
      var n := |events| - 1;
      ReplayAccrues(s, events[..n]);
      AccrueNote(s, Replay(NEW_SUBSTATE, events[..n]), events[n]);
    }
  }

  lemma AccrueNote(s: Substate, u: Substate, e: CallEvent)
    ensures s.Accrue(Note(u, e)) == Note(s.Accrue(u), e)
  {
    if e.Destroyed? {
      assert s.suicides + (u.suicides + {e.address}) == s.suicides + u.suicides + {e.address};
    } else if e.Touched? {
      assert s.touched + (u.touched + e.addresses) == s.touched + u.touched + e.addresses;
    }
  }

  lemma ReplayOne(s: Substate, e: CallEvent)
    ensures Replay(s, [e]) == Note(s, e)
  {
    assert [e][..0] == [];
  }

  // ----- the substate is the replay of the events

  lemma RequestReports(env: Env, w: World, s: Substate, f: Frame)
    ensures Interact(env, w, s, f).substate == Replay(s, RequestEvents(env, w, f))
    ensures Interact(env, w, s, f).WantCall? || Interact(env, w, s, f).WantCreate? ==> RequestEvents(env, w, f) == []
  {
    var events := RequestEvents(env, w, f);
    if |events| == 1 {
      ReplayOne(s, events[0]);
      assert events == [events[0]];
    } else if |events| == 2 {
      assert events[..1] == [events[0]];
      ReplayOne(s, events[0]);
    }
  }

  lemma TransferTouches(env: Env, w: World, s: Substate, p: ActionParams)
    requires Affordable(w, p)
    ensures var (w', n) := TransferExecBalance(env, w, NEW_SUBSTATE, p);
            TransferExecBalance(env, w, s, p) == (w', s.(touched := s.touched + n.touched))
    ensures var (w', n) := TransferExecBalanceAndInitContract(env, w, NEW_SUBSTATE, p);
            TransferExecBalanceAndInitContract(env, w, s, p) == (w', s.(touched := s.touched + n.touched))
  {
    assert TransferExecBalance(env, w, s, p).1.touched
        == s.touched + TransferExecBalance(env, w, NEW_SUBSTATE, p).1.touched;
    assert TransferExecBalanceAndInitContract(env, w, s, p).1.touched
        == s.touched + TransferExecBalanceAndInitContract(env, w, NEW_SUBSTATE, p).1.touched;
  }

  lemma PrologueReports(env: Env, w: World, s: Substate, e: CallCreateExecutive)
    requires e.Fresh() && Affordable(w, e.kind.params) && BuiltinKnown(env, e)
    ensures Prepare(env, w, s, e).substate == Note(s, Touched(PrologueTouches(env, w, e)))
  {
    hide TransferExecBalance, TransferExecBalanceAndInitContract;
    TransferTouches(env, w, s, e.kind.params);
    TransferTouches(env, w.Checkpoint(), s, e.kind.params);
  }

  lemma DeploymentReports(r: VmResult, address: Address, s: Substate)
    ensures IntoContractCreateResult(r, address, s).1
            == Replay(s, if Accepts(r) then [Deployed(address)] else [])
  {
    ReplayOne(s, Deployed(address));
  }

  lemma ReplayThree(s: Substate, a: seq<CallEvent>, b: seq<CallEvent>, c: seq<CallEvent>)
    ensures Replay(s, a + b + c) == Replay(Replay(Replay(s, a), b), c)
  {
    ReplayAppend(s, a + b, c);
    ReplayAppend(s, a, b);
  }

  /** An action leaves its parent's substate with its own events after what was there. */
  lemma {:induction false} ActionReports(env: Env, w: World, s: Substate, e: CallCreateExecutive)
    requires env.Terminating()
    requires e.Fresh() && Affordable(w, e.kind.params) && BuiltinKnown(env, e)
    ensures Direct(env, w, s, e).substate == Replay(s, ActionEvents(env, w, s, e))
    decreases DepthLeft(env, e.depth), 1, 0
  {
    hide Interact, Prepare, DirectFrame, FrameEvents, Replay;
    PrologueReports(env, w, s, e);
    var touched := Touched(PrologueTouches(env, w, e));
    ReplayOne(s, touched);
    var p := Prepare(env, w, s, e);
    if p.Started? && !Rejects(DirectFrame(env, p.world, e.kind.unconfirmed, p.frame).result) {
      var events := FrameEvents(env, p.world, e.kind.unconfirmed, p.frame);
      FrameReports(env, p.world, e.kind.unconfirmed, p.frame);
      ReplayAccrues(p.substate, events);
      ReplayAppend(s, [touched], events);
    } else {
      assert [touched] + [] == [touched];
    }
  }

  lemma {:induction false} FrameReports(env: Env, w: World, s: Substate, f: Frame)
    requires env.Terminating()
    ensures DirectFrame(env, w, s, f).substate == Replay(s, FrameEvents(env, w, s, f))
    decreases DepthLeft(env, f.depth), 0, StepsLeft(env, f)
  {
    hide Interact, Prepare, Direct, ActionEvents, Replay, RequestEvents, IntoContractCreateResult;
    RequestReports(env, w, s, f);
    var own := RequestEvents(env, w, f);
    match Interact(env, w, s, f)
    case Answer(w', s', r) =>
      FrameReports(env, w', s', f.Answered(r));
      ReplayAppend(s, own, FrameEvents(env, w', s', f.Answered(r)));
    case Halt(_, _, _) =>
      assert own + [] == own;
    case WantCall(w', s', p) =>
      var e := NewCallRaw(env, p, f.depth + 1, f.isStatic);
      var o := Direct(env, w', s', e);
      var f' := f.Answered(CallResponse(IntoMessageCallResult(o.result)));
      ActionReports(env, w', s', e);
      FrameReports(env, o.world, o.substate, f');
      ReplayThree(s, own, ActionEvents(env, w', s', e), FrameEvents(env, o.world, o.substate, f'));
      assert own + ActionEvents(env, w', s', e) + FrameEvents(env, o.world, o.substate, f')
          == own + (ActionEvents(env, w', s', e) + FrameEvents(env, o.world, o.substate, f'));
    case WantCreate(w', s', p, address) =>
      var e := NewCreateRaw(p, f.depth + 1, f.isStatic);
      var o := Direct(env, w', s', e);
      var (c, s'') := IntoContractCreateResult(o.result, address, o.substate);
      var f' := f.Answered(CreateResponse(c));
      ActionReports(env, w', s', e);
      DeploymentReports(o.result, address, o.substate);
      FrameReports(env, o.world, s'', f');
      var deployed := if Accepts(o.result) then [Deployed(address)] else [];
      var nested := ActionEvents(env, w', s', e);
      var rest := FrameEvents(env, o.world, s'', f');
      ReplayThree(Replay(s, own), nested, deployed, rest);
      ReplayAppend(s, own, nested + deployed + rest);
  }

  // ----- the parts of the substate

  function LogsOf(events: seq<CallEvent>): seq<LogEntry>
    decreases |events|
  {
    if events == [] then []
    else
      var n := |events| - 1;
      LogsOf(events[..n]) + if events[n].Logged? then [events[n].entry] else []
  }

  function ContractsOf(events: seq<CallEvent>): seq<Address>
    decreases |events|
  {
    if events == [] then []
    else
      var n := |events| - 1;
      ContractsOf(events[..n]) + if events[n].Deployed? then [events[n].address] else []
  }

  function RefundOf(events: seq<CallEvent>): int
    decreases |events|
  {
    if events == [] then 0
    else
      var n := |events| - 1;
      RefundOf(events[..n]) + if events[n].RefundChanged? then events[n].delta else 0
  }

  function DestroyedIn(events: seq<CallEvent>): set<Address> {
    set e | e in events && e.Destroyed? :: e.address
  }

  lemma {:induction false} ReplayParts(s: Substate, events: seq<CallEvent>)
    ensures var r := Replay(s, events);
            && r.logs == s.logs + LogsOf(events)
            && r.contractsCreated == s.contractsCreated + ContractsOf(events)
            && r.sstoreClearsRefund == s.sstoreClearsRefund + RefundOf(events)
            && r.suicides == s.suicides + DestroyedIn(events)
    decreases |events|
  {
    if events != [] {
      var n := |events| - 1;
      ReplayParts(s, events[..n]);
      assert events == events[..n] + [events[n]];
      assert DestroyedIn(events)
          == DestroyedIn(events[..n]) + if events[n].Destroyed? then {events[n].address} else {};
    }
  }

  /** What an action adds to its parent's substate: the logs, the contracts and the refunds of the requests
      below it, in order, and the accounts that destroyed themselves; a rejected one adds none of these. */
  lemma ActionAdds(env: Env, w: World, s: Substate, e: CallCreateExecutive)
    requires env.Terminating()
    requires e.Fresh() && Affordable(w, e.kind.params) && BuiltinKnown(env, e)
    ensures var o, events := Direct(env, w, s, e), ActionEvents(env, w, s, e);
            && o.substate.logs == s.logs + LogsOf(events)
            && o.substate.contractsCreated == s.contractsCreated + ContractsOf(events)
            && o.substate.sstoreClearsRefund == s.sstoreClearsRefund + RefundOf(events)
            && o.substate.suicides == s.suicides + DestroyedIn(events)
            && (Rejects(o.result) ==> events == [Touched(PrologueTouches(env, w, e))])
  {
    hide Replay, FrameEvents, LogsOf, ContractsOf, RefundOf, DestroyedIn, Prepare, DirectFrame;
    ActionReports(env, w, s, e);
    ReplayParts(s, ActionEvents(env, w, s, e));
  }

  lemma {:induction false} ReplayTouches(s: Substate, events: seq<CallEvent>, a: Address)
    ensures a in Replay(s, events).touched
            <==> a in s.touched || exists i | 0 <= i < |events| :: events[i].Touched? && a in events[i].addresses
    decreases |events|
  {
    if events != [] {
      var n := |events| - 1;
      ReplayTouches(s, events[..n], a);
      assert forall i | 0 <= i < n :: events[..n][i] == events[i];
    }
  }

  /** What was touched before an action, or by moving its value, stays touched, even if it is rejected. */
  lemma ActionTouches(env: Env, w: World, s: Substate, e: CallCreateExecutive, a: Address)
    requires env.Terminating()
    requires e.Fresh() && Affordable(w, e.kind.params) && BuiltinKnown(env, e)
    requires a in s.touched || a in PrologueTouches(env, w, e)
    ensures a in Direct(env, w, s, e).substate.touched
  {
    hide Replay, FrameEvents, Prepare, DirectFrame, PrologueTouches;
    ActionReports(env, w, s, e);
    var events := ActionEvents(env, w, s, e);
    ReplayTouches(s, events, a);
    assert events[0] == Touched(PrologueTouches(env, w, e));
  }
}
