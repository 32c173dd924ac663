/** The trap/resume loop and its agreement with direct recursion. */
module CallStack {
  import opened Primitives
  import opened WorldState
  import opened Externalities
  import opened Executive
  import CallTree

  /** An executive on the stack, with the address of the contract it is waiting for, if any. */
  type Entry = (Option<Address>, CallCreateExecutive)

  /** The entry waits for a nested action, and knows its address exactly when it is a create. */
  predicate Waiting(entry: Entry) {
    entry.1.Suspended() && (entry.0.Some? <==> entry.1.kind.ResumeCreate?)
  }

  ghost predicate AllWaiting(stack: seq<Entry>) {
    forall i | 0 <= i < |stack| :: Waiting(stack[i])
  }

  /** The substate that an action run on top of `stack` reports to. */
  function ParentSubstate(stack: seq<Entry>, top: Substate): Substate
    requires stack != [] ==> stack[|stack| - 1].1.HasUnconfirmedSubstate()
  {
    if stack == [] then top else stack[|stack| - 1].1.kind.unconfirmed
  }

  function WithParentSubstate(stack: seq<Entry>, s: Substate): seq<Entry>
    requires stack != [] ==> stack[|stack| - 1].1.HasUnconfirmedSubstate()
  {
    if stack == [] then stack
    else
      var (address, e) := stack[|stack| - 1];
      stack[|stack| - 1 := (address, e.WithUnconfirmed(s))]
  }

  function WithTopSubstate(stack: seq<Entry>, top: Substate, s: Substate): Substate {
    if stack == [] then s else top
  }

  // ----- what remains to be done, by direct recursion

  /** The frame and unconfirmed substate with which a suspended executive continues after `r`. */
  function Resumed(entry: Entry, r: VmResult): (Substate, Frame)
    requires Waiting(entry)
  {
    var kind := entry.1.kind;
    if kind.ResumeCall? then
      (kind.unconfirmed, kind.resume.Answered(CallResponse(IntoMessageCallResult(r))))
    else
      var (c, u) := IntoContractCreateResult(r, entry.0.value, kind.unconfirmed);
      (u, kind.resume.Answered(CreateResponse(c)))
  }

  /** Feeds `r` to the suspended executives, innermost first. */
  ghost function Unwind(env: Env, w: World, top: Substate, stack: seq<Entry>, r: VmResult): Outcome
    requires env.Terminating() && AllWaiting(stack)
    decreases |stack|, 0
  {
    if stack == [] then
      Outcome(w, top, r, 0)
    else
      var n := |stack| - 1;
      var (u, f) := Resumed(stack[n], r);
      var o := DirectFrame(env, w, u, f);
      var (w', s') := EnactResult(o.result, o.world, ParentSubstate(stack[..n], top), o.substate);
      UnwindParent(env, w', s', top, stack[..n], o.result, o.calls)
  }

  ghost function UnwindParent(env: Env, w: World, s: Substate, top: Substate, stack: seq<Entry>, r: VmResult,
                              calls: nat): Outcome
    requires env.Terminating() && AllWaiting(stack)
    decreases |stack|, 1
  {
    var o := Unwind(env, w, WithTopSubstate(stack, top, s), WithParentSubstate(stack, s), r);
    o.(calls := calls + o.calls)
  }

  /** Runs `child` on top of `stack`. */
  ghost function AfterChild(env: Env, w: World, top: Substate, stack: seq<Entry>, child: CallCreateExecutive): Outcome
    requires env.Terminating() && AllWaiting(stack)
    requires child.Fresh() && Affordable(w, child.kind.params) && BuiltinKnown(env, child)
  {
    var o := Direct(env, w, ParentSubstate(stack, top), child);
    UnwindParent(env, o.world, o.substate, top, stack, o.result, o.calls)
  }

  /** A trap carries an executive that waits for exactly the action it asks for. */
  ghost predicate WellFormedTrap(env: Env, t: TrapResult) {
    match t
    case Done(_, _, _) => true
    case TrapCall(w, _, p, e) => e.Suspended() && e.kind.ResumeCall? && Affordable(w, p)
    case TrapCreate(w, _, p, address, e) => e.Suspended() && e.kind.ResumeCreate? && Affordable(w, p)
  }

  /** Goes on from what an executive on top of `stack` returned. */
  ghost function AfterTrap(env: Env, top: Substate, stack: seq<Entry>, t: TrapResult): Outcome
    requires env.Terminating() && AllWaiting(stack) && WellFormedTrap(env, t)
  {
    var stack' := WithParentSubstate(stack, t.substate);
    var top' := WithTopSubstate(stack, top, t.substate);
    match t
    case Done(w, s, r) => UnwindParent(env, w, s, top, stack, r, 0)
    case TrapCall(w, _, p, e) =>
      var o := AfterChild(env, w, top', stack' + [(None, e)], NewCallRaw(env, p, e.depth + 1, e.isStatic));
      o.(calls := 1 + o.calls)
    case TrapCreate(w, _, p, address, e) =>
      var o := AfterChild(env, w, top', stack' + [(Some(address), e)], NewCreateRaw(p, e.depth + 1, e.isStatic));
      o.(calls := 1 + o.calls)
  }

  lemma {:induction false} RunToTrapAgrees(env: Env, w: World, s: Substate, f: Frame)
    requires env.Terminating()
    ensures var last := RunToTrap(env, w, s, f);
            DirectFrame(env, w, s, f) == DirectFrame(env, last.world, last.substate, last.frame)
    decreases StepsLeft(env, f)
  {
    var i := Interact(env, w, s, f);
    if i.Answer? {
      RunToTrapAgrees(env, i.world, i.substate, f.Answered(i.response));
    }
  }

  lemma ContinueWellFormed(env: Env, w: World, s: Substate, e: CallCreateExecutive, u: Substate, f: Frame)
    requires env.Terminating()
    requires Runs(e, f)
    ensures WellFormedTrap(env, Continue(env, w, s, e, u, f))
  {
    var last := RunToTrap(env, w, u, f);
    assert last.frame.(history := []) == f.(history := []);
  }

  /** The executive on top of the stack resumes first and reports to the one below it. */
  lemma PopAgrees(env: Env, w: World, u: Substate, top: Substate, stack: seq<Entry>, s: Substate, entry: Entry,
                  r: VmResult, calls: nat)
    requires env.Terminating() && AllWaiting(stack) && Waiting(entry)
    ensures var (u', f) := Resumed((entry.0, entry.1.WithUnconfirmed(u)), r);
            var o := DirectFrame(env, w, u', f);
            var (w', s') := EnactResult(o.result, o.world, s, o.substate);
            UnwindParent(env, w, u, WithTopSubstate(stack, top, s), WithParentSubstate(stack, s) + [entry], r, calls)
            == UnwindParent(env, w', s', top, stack, o.result, calls + o.calls)
  {
    hide Direct, DirectFrame, Interact;
    var below, top' := WithParentSubstate(stack, s), WithTopSubstate(stack, top, s);
    var above := WithParentSubstate(below + [entry], u);
    assert AllWaiting(above);
    assert above[..|stack|] == below && ParentSubstate(below, top') == s;
    var (u', f) := Resumed(above[|stack|], r);
    var o := DirectFrame(env, w, u', f);
    var (w', s') := EnactResult(o.result, o.world, s, o.substate);
    assert Unwind(env, w, top', above, r) == UnwindParent(env, w', s', top', below, o.result, o.calls);
    assert WithParentSubstate(below, s') == WithParentSubstate(stack, s');
  }

  /** The frame `f` is the one that executive `e` runs. */
  predicate Runs(e: CallCreateExecutive, f: Frame) {
    f.depth == e.depth && f.isStatic == e.isStatic && f.isCreate == e.isCreate && f.params.gas == e.gas
  }

  /** A call trap on top of `stack`, carried out by direct recursion. */
  lemma CallTrapAgrees(env: Env, w: World, s: Substate, p: ActionParams, e: CallCreateExecutive, top: Substate,
                       stack: seq<Entry>)
    requires env.Terminating() && AllWaiting(stack)
    requires e.Suspended() && e.kind.ResumeCall? && Affordable(w, p)
    ensures var c := Direct(env, w, e.kind.unconfirmed, NewCallRaw(env, p, e.depth + 1, e.isStatic));
            var o := DirectFrame(env, c.world, c.substate,
                                 e.kind.resume.Answered(CallResponse(IntoMessageCallResult(c.result))));
            var (w', s') := EnactResult(o.result, o.world, s, o.substate);
            AfterTrap(env, top, stack, TrapCall(w, s, p, e))
            == UnwindParent(env, w', s', top, stack, o.result, 1 + c.calls + o.calls)
  {
    hide Direct, DirectFrame, Interact, Unwind;
    var c := Direct(env, w, e.kind.unconfirmed, NewCallRaw(env, p, e.depth + 1, e.isStatic));
    PopAgrees(env, c.world, c.substate, top, stack, s, (None, e), c.result, c.calls);
  }

  lemma CreateTrapAgrees(env: Env, w: World, s: Substate, p: ActionParams, address: Address, e: CallCreateExecutive,
                         top: Substate, stack: seq<Entry>)
    requires env.Terminating() && AllWaiting(stack)
    requires e.Suspended() && e.kind.ResumeCreate? && Affordable(w, p)
    ensures var c := Direct(env, w, e.kind.unconfirmed, NewCreateRaw(p, e.depth + 1, e.isStatic));
            var (r, u) := IntoContractCreateResult(c.result, address, c.substate);
            var o := DirectFrame(env, c.world, u, e.kind.resume.Answered(CreateResponse(r)));
            var (w', s') := EnactResult(o.result, o.world, s, o.substate);
            AfterTrap(env, top, stack, TrapCreate(w, s, p, address, e))
            == UnwindParent(env, w', s', top, stack, o.result, 1 + c.calls + o.calls)
  {
    hide Direct, DirectFrame, Interact, Unwind;
    var c := Direct(env, w, e.kind.unconfirmed, NewCreateRaw(p, e.depth + 1, e.isStatic));
    PopAgrees(env, c.world, c.substate, top, stack, s, (Some(address), e), c.result, c.calls);
  }

  /** Running a frame until it traps and then unwinding is running it by direct recursion. */
  lemma ContinueAgrees(env: Env, w: World, s: Substate, e: CallCreateExecutive, u: Substate, f: Frame, top: Substate,
                       stack: seq<Entry>)
    requires env.Terminating() && AllWaiting(stack) && Runs(e, f)
    ensures WellFormedTrap(env, Continue(env, w, s, e, u, f))
    ensures var o := DirectFrame(env, w, u, f);
            var (w', s') := EnactResult(o.result, o.world, s, o.substate);
            AfterTrap(env, top, stack, Continue(env, w, s, e, u, f))
              == UnwindParent(env, w', s', top, stack, o.result, o.calls)
  {
    hide Direct, Interact, Unwind, UnwindParent, AfterChild;
    ContinueWellFormed(env, w, s, e, u, f);
    RunToTrapAgrees(env, w, u, f);
    var last := RunToTrap(env, w, u, f);
    match Continue(env, w, s, e, u, f)
    case Done(_, _, _) =>
    case TrapCall(w', _, p, e') => CallTrapAgrees(env, w', s, p, e', top, stack);
    case TrapCreate(w', _, p, address, e') => CreateTrapAgrees(env, w', s, p, address, e', top, stack);
  }

  /** What the executive that ran last came back with; `Nothing` asks for the top of the stack. */
  datatype LastResult =
    | Nothing
    | Returned(isCreate: bool, gas: nat, result: VmResult)
    | CallTrapped(params: ActionParams, resume: CallCreateExecutive)
    | CreateTrapped(params: ActionParams, address: Address, resume: CallCreateExecutive)

  function LastOf(e: CallCreateExecutive, t: TrapResult): LastResult {
    match t
    case Done(_, _, r) => Returned(e.isCreate, e.gas, r)
    case TrapCall(_, _, p, resume) => CallTrapped(p, resume)
    case TrapCreate(_, _, p, address, resume) => CreateTrapped(p, address, resume)
  }

  /** The trap that `last` stands for, with the state and parent substate put back in. */
  ghost function TrapOf(w: World, s: Substate, last: LastResult): TrapResult
    requires !last.Nothing?
  {
    match last
    case Returned(_, _, r) => Done(w, s, r)
    case CallTrapped(p, resume) => TrapCall(w, s, p, resume)
    case CreateTrapped(p, address, resume) => TrapCreate(w, s, p, address, resume)
  }

  /** Each entry waits for the action above it, and the topmost one for an action of kind `isCreate`. */
  ghost predicate Linked(stack: seq<Entry>, isCreate: bool) {
    && (stack != [] ==> stack[|stack| - 1].0.Some? == isCreate)
    && forall i | 0 <= i < |stack| - 1 :: stack[i].0.Some? == stack[i + 1].1.isCreate
  }

  /** What holds whenever the loop looks at `last`; this is why its `panic!` and `expect` are dead. */
  ghost predicate LoopInvariant(env: Env, w: World, stack: seq<Entry>, last: LastResult) {
    if last.Nothing? then
      && stack != []
      && AllWaiting(stack[..|stack| - 1])
      && var child := stack[|stack| - 1].1;
         && child.Fresh() && Affordable(w, child.kind.params) && BuiltinKnown(env, child)
         && Linked(stack[..|stack| - 1], child.isCreate)
    else
      && AllWaiting(stack)
      && WellFormedTrap(env, TrapOf(w, NEW_SUBSTATE, last))
      && Linked(stack, if last.Returned? then last.isCreate else last.resume.isCreate)
  }

  /** The rest of the loop, by direct recursion. */
  ghost function Remaining(env: Env, w: World, top: Substate, stack: seq<Entry>, last: LastResult): Outcome
    requires env.Terminating() && LoopInvariant(env, w, stack, last)
  {
    if last.Nothing? then
      AfterChild(env, w, top, stack[..|stack| - 1], stack[|stack| - 1].1)
    else
      AfterTrap(env, top, stack, TrapOf(w, ParentSubstate(stack, top), last))
  }

  /** Writing back the parent's substate does not change what remains to be done. */
  lemma AfterTrapWriteBack(env: Env, top: Substate, stack: seq<Entry>, t: TrapResult)
    requires env.Terminating() && AllWaiting(stack) && WellFormedTrap(env, t)
    ensures AfterTrap(env, WithTopSubstate(stack, top, t.substate), WithParentSubstate(stack, t.substate), t)
            == AfterTrap(env, top, stack, t)
  {
    hide Direct, DirectFrame, Interact, AfterChild;
    var stack' := WithParentSubstate(stack, t.substate);
    assert WithParentSubstate(stack', t.substate) == stack';
  }

  /** Executing a fresh executive until it traps, and then going on, is running it directly. */
  lemma ExecAgrees(env: Env, w: World, top: Substate, stack: seq<Entry>, e: CallCreateExecutive)
    requires env.Terminating() && AllWaiting(stack)
    requires e.Fresh() && Affordable(w, e.kind.params) && BuiltinKnown(env, e)
    ensures var t := Exec(env, w, ParentSubstate(stack, top), e);
            WellFormedTrap(env, t) && AfterTrap(env, top, stack, t) == AfterChild(env, w, top, stack, e)
  {
    hide DirectFrame, Interact, Unwind, UnwindParent, Prepare, Continue;
    var s := ParentSubstate(stack, top);
    match Prepare(env, w, s, e)
    case Settled(_, _, _) =>
    case Started(w', s', f) =>
      ContinueAgrees(env, w', s', e, e.kind.unconfirmed, f, top, stack);
  }

  /** Resuming the executive on top of the stack is one step of unwinding. */
  lemma ResumeAgrees(env: Env, w: World, top: Substate, stack: seq<Entry>, entry: Entry, r: VmResult)
    requires env.Terminating() && AllWaiting(stack) && Waiting(entry)
    ensures AllWaiting(stack + [entry])
    ensures var (u, f) := Resumed(entry, r);
            var t := Continue(env, w, ParentSubstate(stack, top), entry.1, u, f);
            WellFormedTrap(env, t) && AfterTrap(env, top, stack, t) == Unwind(env, w, top, stack + [entry], r)
  {
    hide Direct, DirectFrame, Interact, UnwindParent, Continue, AfterTrap;
    var (u, f) := Resumed(entry, r);
    assert (stack + [entry])[..|stack|] == stack;
    ContinueAgrees(env, w, ParentSubstate(stack, top), entry.1, u, f, top, stack);
  }

  /** The number of frames that are suspended while the loop looks at `last`. */
  function SuspendedFrames(stack: seq<Entry>, last: LastResult): int {
    match last
    case Nothing => |stack| - 1
    case Returned(_, _, _) => |stack|
    case CallTrapped(_, _) => |stack| + 1
    case CreateTrapped(_, _, _) => |stack| + 1
  }

  /** On top of the checkpoints that were open before, there is one for each suspended frame. */
  ghost predicate Opened(base: seq<Accounts>, w: World, stack: seq<Entry>, last: LastResult) {
    |w.snapshots| == |base| + SuspendedFrames(stack, last) && base <= w.snapshots
  }

  /** The loop state after an executive on top of `stack` returned `t`. */
  ghost predicate Proceeds(env: Env, base: seq<Accounts>, top: Substate, stack: seq<Entry>, e: CallCreateExecutive,
                           t: TrapResult, o: Outcome)
    requires env.Terminating()
  {
    && AllWaiting(stack)
    && var stack', top' := WithParentSubstate(stack, t.substate), WithTopSubstate(stack, top, t.substate);
       var last := LastOf(e, t);
       && LoopInvariant(env, t.world, stack', last)
       && Remaining(env, t.world, top', stack', last) == o
       && Opened(base, t.world, stack', last)
       && |stack'| == |stack|
  }

  lemma TrapProceeds(env: Env, base: seq<Accounts>, top: Substate, stack: seq<Entry>, e: CallCreateExecutive,
                     t: TrapResult)
    requires env.Terminating() && AllWaiting(stack) && Linked(stack, e.isCreate)
    requires WellFormedTrap(env, t) && (!t.Done? ==> t.resume.isCreate == e.isCreate)
    requires Opened(base, t.world, stack, LastOf(e, t))
    ensures Proceeds(env, base, top, stack, e, t, AfterTrap(env, top, stack, t))
  {
    hide Direct, DirectFrame, Interact, Unwind, UnwindParent, AfterChild, AfterTrap;
    AfterTrapWriteBack(env, top, stack, t);
    var stack' := WithParentSubstate(stack, t.substate);
    assert ParentSubstate(stack', WithTopSubstate(stack, top, t.substate)) == t.substate;
    assert TrapOf(t.world, t.substate, LastOf(e, t)) == t;
  }

  lemma StartAgrees(env: Env, w: World, s: Substate, e: CallCreateExecutive)
    requires env.Terminating()
    requires e.Fresh() && Affordable(w, e.kind.params) && BuiltinKnown(env, e)
    ensures Proceeds(env, w.snapshots, s, [], e, Exec(env, w, s, e), Direct(env, w, s, e))
  {
    hide Direct, DirectFrame, Interact, Prepare, Continue, AfterTrap, LoopInvariant, Remaining;
    ExecAgrees(env, w, s, [], e);
    CallTree.ExecCheckpoints(env, w, s, e);
    TrapProceeds(env, w.snapshots, s, [], e, Exec(env, w, s, e));
  }

  /** On an empty stack nobody asks whether the result is of a create; the loop starts by saying it is not. */
  lemma FirstFlagIsIdle(env: Env, base: seq<Accounts>, w: World, top: Substate, last: LastResult)
    requires env.Terminating() && last.Returned? && LoopInvariant(env, w, [], last) && Opened(base, w, [], last)
    ensures var last' := last.(isCreate := false);
            && LoopInvariant(env, w, [], last') && Opened(base, w, [], last')
            && Remaining(env, w, top, [], last') == Remaining(env, w, top, [], last)
  {
    hide Direct, DirectFrame, Interact;
  }

  /** The branch that executes the top of the stack. */
  lemma NothingAgrees(env: Env, base: seq<Accounts>, w: World, top: Substate, stack: seq<Entry>)
    requires env.Terminating() && LoopInvariant(env, w, stack, Nothing) && Opened(base, w, stack, Nothing)
    ensures var n := |stack| - 1;
            && n >= 0 && AllWaiting(stack[..n])
            && var e := stack[n].1;
               && e.Fresh() && Affordable(w, e.kind.params) && BuiltinKnown(env, e)
               && Proceeds(env, base, top, stack[..n], e, Exec(env, w, ParentSubstate(stack[..n], top), e),
                           Remaining(env, w, top, stack, Nothing))
  {
    hide Direct, DirectFrame, Interact, Prepare, Continue, AfterTrap, AfterChild, Unwind, UnwindParent;
    var rest, e := stack[..|stack| - 1], stack[|stack| - 1].1;
    ExecAgrees(env, w, top, rest, e);
    CallTree.ExecCheckpoints(env, w, ParentSubstate(rest, top), e);
    TrapProceeds(env, base, top, rest, e, Exec(env, w, ParentSubstate(rest, top), e));
  }

  lemma ReturnedUnwinds(env: Env, w: World, top: Substate, stack: seq<Entry>, last: LastResult)
    requires env.Terminating() && LoopInvariant(env, w, stack, last) && last.Returned?
    ensures Remaining(env, w, top, stack, last) == Unwind(env, w, top, stack, last.result)
    ensures stack == [] ==> Remaining(env, w, top, stack, last) == Outcome(w, top, last.result, 0)
  {
    hide Direct, DirectFrame, Interact;
    assert WithParentSubstate(stack, ParentSubstate(stack, top)) == stack;
  }

  /** `resume_create` or `resume_call`, as the waiting entry demands. */
  function ResumeTop(env: Env, w: World, s: Substate, entry: Entry, r: VmResult): TrapResult
    requires env.Terminating() && Waiting(entry)
  {
    var (address, exec) := entry;
    if address.Some? then
      var (c, unconfirmed) := IntoContractCreateResult(r, address.value, exec.kind.unconfirmed);
      ResumeWithCreate(env, w, s, exec.WithUnconfirmed(unconfirmed), c)
    else
      ResumeWithCall(env, w, s, exec, IntoMessageCallResult(r))
  }

  lemma ResumeTopContinues(env: Env, w: World, s: Substate, entry: Entry, r: VmResult)
    requires env.Terminating() && Waiting(entry)
    ensures var (u, f) := Resumed(entry, r); ResumeTop(env, w, s, entry, r) == Continue(env, w, s, entry.1, u, f)
  {
    hide RunToTrap, Interact;
  }

  /** The branch that resumes the top of the stack: the result it waits for is of the kind it resumes with. */
  lemma ReturnedAgrees(env: Env, base: seq<Accounts>, w: World, top: Substate, stack: seq<Entry>, last: LastResult)
    requires env.Terminating() && stack != [] && last.Returned?
    requires LoopInvariant(env, w, stack, last) && Opened(base, w, stack, last)
    ensures var n := |stack| - 1;
            && AllWaiting(stack[..n]) && Waiting(stack[n]) && (last.isCreate <==> stack[n].1.kind.ResumeCreate?)
            && var t := ResumeTop(env, w, ParentSubstate(stack[..n], top), stack[n], last.result);
               Proceeds(env, base, top, stack[..n], stack[n].1, t, Remaining(env, w, top, stack, last))
  {
    hide *;
    ReturnedUnwinds(env, w, top, stack, last);
    var n := |stack| - 1;
    var rest, entry := stack[..n], stack[n];
    TopWaits(env, base, w, stack, last);
    var (u, f) := Resumed(entry, last.result);
    assert rest + [entry] == stack;
    ResumeAgrees(env, w, top, rest, entry, last.result);
    ResumeTopContinues(env, w, ParentSubstate(rest, top), entry, last.result);
    TopResumes(env, base, w, top, stack, last);
    TrapProceeds(env, base, top, rest, entry.1, Continue(env, w, ParentSubstate(rest, top), entry.1, u, f));
  }

  lemma TopWaits(env: Env, base: seq<Accounts>, w: World, stack: seq<Entry>, last: LastResult)
    requires stack != [] && last.Returned? && LoopInvariant(env, w, stack, last)
    ensures var n := |stack| - 1;
            && AllWaiting(stack[..n]) && Waiting(stack[n]) && Linked(stack[..n], stack[n].1.isCreate)
            && (last.isCreate <==> stack[n].1.kind.ResumeCreate?)
            && (stack[..n] != [] ==> stack[..n][|stack[..n]| - 1].1.HasUnconfirmedSubstate())
  {
  }

  /** Resuming keeps a checkpoint open for each frame that is suspended afterwards. */
  lemma TopResumes(env: Env, base: seq<Accounts>, w: World, top: Substate, stack: seq<Entry>, last: LastResult)
    requires env.Terminating() && stack != [] && last.Returned?
    requires Waiting(stack[|stack| - 1]) && AllWaiting(stack[..|stack| - 1]) && Opened(base, w, stack, last)
    ensures var n := |stack| - 1;
            var (u, f) := Resumed(stack[n], last.result);
            var t := Continue(env, w, ParentSubstate(stack[..n], top), stack[n].1, u, f);
            && Opened(base, t.world, stack[..n], LastOf(stack[n].1, t))
            && (!t.Done? ==> t.resume.isCreate == stack[n].1.isCreate)
  {
    hide RunToTrap, Interact;
    var n := |stack| - 1;
    var (u, f) := Resumed(stack[n], last.result);
    CallTree.ContinueCheckpoints(env, w, ParentSubstate(stack[..n], top), stack[n].1, u, f);
  }

  /** The suspended executive and the new one that a trap pushes. */
  function Pushed(env: Env, last: LastResult): seq<Entry>
    requires last.CallTrapped? || last.CreateTrapped?
  {
    if last.CallTrapped? then
      [(None, last.resume), (None, NewCallRaw(env, last.params, last.resume.depth + 1, last.resume.isStatic))]
    else
      [(Some(last.address), last.resume),
       (None, NewCreateRaw(last.params, last.resume.depth + 1, last.resume.isStatic))]
  }

  /** The branches that push a nested action. */
  lemma TrappedAgrees(env: Env, base: seq<Accounts>, w: World, top: Substate, stack: seq<Entry>, last: LastResult)
    requires env.Terminating() && (last.CallTrapped? || last.CreateTrapped?)
    requires LoopInvariant(env, w, stack, last) && Opened(base, w, stack, last)
    ensures var stack' := stack + Pushed(env, last);
            && LoopInvariant(env, w, stack', Nothing)
            && Opened(base, w, stack', Nothing)
            && var o := Remaining(env, w, top, stack', Nothing);
               Remaining(env, w, top, stack, last) == o.(calls := 1 + o.calls)
  {
    hide Direct, DirectFrame, Interact, AfterChild;
    var pushed := Pushed(env, last);
    var below := stack + [pushed[0]];
    assert (stack + pushed)[..|stack| + 1] == below;
    assert (stack + pushed)[|stack| + 1] == pushed[1];
    assert AllWaiting(below) by {
      assert Waiting(pushed[0]);
    }
    assert WithParentSubstate(stack, ParentSubstate(stack, top)) == stack;
    assert WithTopSubstate(stack, top, ParentSubstate(stack, top)) == top;
    assert Remaining(env, w, top, stack + pushed, Nothing) == AfterChild(env, w, top, below, pushed[1].1);
  }

  // ----- in place

  /** Runs a frame in place until it ends or traps. */
  method RunFrame(env: Env, w: World, s: Substate, e: CallCreateExecutive, u: Substate, f: Frame)
    returns (t: TrapResult)
    requires env.Terminating()
    ensures t == Continue(env, w, s, e, u, f)
  {
    hide RunToTrap, Interact;
    var ext := new FrameExternalities(env, f, w, u);
    var i := ext.Run();
    match i
    case Halt(_, _, result) =>
      var (w', s') := EnactResult(result, ext.world, s, ext.substate);
      t := Done(w', s', result);
    case WantCall(_, _, p) =>
      t := TrapCall(ext.world, s, p, e.(kind := ResumeCall(ext.frame, ext.substate)));
    case WantCreate(_, _, p, address) =>
      t := TrapCreate(ext.world, s, p, address, e.(kind := ResumeCreate(ext.frame, ext.substate)));
  }

  method Execute(env: Env, w: World, s: Substate, e: CallCreateExecutive) returns (t: TrapResult)
    requires env.Terminating()
    requires e.Fresh() && Affordable(w, e.kind.params) && BuiltinKnown(env, e)
    ensures t == Exec(env, w, s, e)
  {
    hide Prepare, Continue;
    match Prepare(env, w, s, e)
    case Settled(w', s', r) => t := Done(w', s', r);
    case Started(w', s', f) => t := RunFrame(env, w', s', e, e.kind.unconfirmed, f);
  }

  method ResumeAfterCall(env: Env, w: World, s: Substate, e: CallCreateExecutive, r: MessageCallResult)
    returns (t: TrapResult)
    requires env.Terminating() && e.kind.ResumeCall?
    ensures t == ResumeWithCall(env, w, s, e, r)
  {
    t := RunFrame(env, w, s, e, e.kind.unconfirmed, e.kind.resume.Answered(CallResponse(r)));
  }

  method ResumeAfterCreate(env: Env, w: World, s: Substate, e: CallCreateExecutive, r: ContractCreateResult)
    returns (t: TrapResult)
    requires env.Terminating() && e.kind.ResumeCreate?
    ensures t == ResumeWithCreate(env, w, s, e, r)
  {
    t := RunFrame(env, w, s, e, e.kind.unconfirmed, e.kind.resume.Answered(CreateResponse(r)));
  }

  /** The `&mut State` and `&mut Substate` that `consume` borrows. */
  class Machine {
    var world: World
    var substate: Substate

    constructor (w: World, s: Substate)
      ensures world == w && substate == s
    {
      world, substate := w, s;
    }

    /** Execute and consume an executive, handling the resume traps on an explicit stack. The state, the
        substate and the result are those of the direct recursion. Every `panic!` and `expect` of the
        loop is a proof obligation here: a match without its case, a precondition or an assertion. */
    method Consume(env: Env, e: CallCreateExecutive) returns (r: VmResult)
      requires env.Terminating()
      requires e.Fresh() && Affordable(world, e.kind.params) && BuiltinKnown(env, e)
      modifies this
      ensures Outcome(world, substate, r, Direct(env, old(world), old(substate), e).calls)
              == Direct(env, old(world), old(substate), e)
    {
      hide Direct, DirectFrame, Interact, Prepare, Continue, Exec, Remaining, LoopInvariant, NewCallRaw, NewCreateRaw,
        ResumeWithCall, ResumeWithCreate;
      ghost var goal, base := Direct(env, world, substate, e), world.snapshots;
      StartAgrees(env, world, substate, e);
      var callstack: seq<Entry> := [];
      var first := Execute(env, world, substate, e);
      world, substate := first.world, first.substate;
      var last := LastOf(e, first);
      if last.Returned? {
        FirstFlagIsIdle(env, base, world, substate, last);
        last := last.(isCreate := false);
      }
      while true
        invariant LoopInvariant(env, world, callstack, last)
        invariant Remaining(env, world, substate, callstack, last).(calls := goal.calls) == goal
        invariant Opened(base, world, callstack, last)
        decreases 3 * Remaining(env, world, substate, callstack, last).calls + |callstack|
      {
        match last
        case Nothing =>
          NothingAgrees(env, base, world, substate, callstack);
          var n := |callstack| - 1;
          var (_, exec) := callstack[n];
          callstack := callstack[..n];
          var t := Execute(env, world, ParentSubstate(callstack, substate), exec);
          world, substate := t.world, WithTopSubstate(callstack, substate, t.substate);
          callstack := WithParentSubstate(callstack, t.substate);
          last := LastOf(exec, t);
        case Returned(isCreate, gas, val) =>
          if callstack == [] {
            ReturnedUnwinds(env, world, substate, callstack, last);
            return val;
          }
          ReturnedAgrees(env, base, world, substate, callstack, last);
          var n := |callstack| - 1;
          var (address, exec) := callstack[n];
          callstack := callstack[..n];
          var t;
          if isCreate {
            assert address.Some?;
            var (c, unconfirmed) := IntoContractCreateResult(val, address.value, exec.kind.unconfirmed);
            exec := exec.WithUnconfirmed(unconfirmed);
            t := ResumeAfterCreate(env, world, ParentSubstate(callstack, substate), exec, c);
          } else {
            t := ResumeAfterCall(env, world, ParentSubstate(callstack, substate), exec, IntoMessageCallResult(val));
          }
          world, substate := t.world, WithTopSubstate(callstack, substate, t.substate);
          callstack := WithParentSubstate(callstack, t.substate);
          last := LastOf(exec, t);
        case CallTrapped(subparams, resume) =>
          TrappedAgrees(env, base, world, substate, callstack, last);
          var subExec := NewCallRaw(env, subparams, resume.depth + 1, resume.isStatic);
          callstack := callstack + [(None, resume), (None, subExec)];
          last := Nothing;
        case CreateTrapped(subparams, address, resume) =>
          TrappedAgrees(env, base, world, substate, callstack, last);
          var subExec := NewCreateRaw(subparams, resume.depth + 1, resume.isStatic);
          callstack := callstack + [(Some(address), resume), (None, subExec)];
          last := Nothing;
      }
    }
  }
}
