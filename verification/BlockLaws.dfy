/** What receipts, rewards and locked headers say about their block. */
module BlockLaws {
  import opened Primitives
  import opened WorldState
  import opened Externalities
  import opened Executive
  import opened CallEvents
  import opened Transact
  import opened TransactionLaws
  import opened BlockBuilding

  // ----- receipts

  /** A transaction runs under the author, the limit and the number of its block, and after the gas of the
      receipts that are there. */
  lemma RunsInItsBlock(e: Engine, b: ExecutedBlock, t: Transaction)
    ensures var c, h := ContextOf(e, b, t), b.header;
            && c.author == h.author && c.gasLimit == h.gasLimit && !c.outputFromCreate
            && c.gasUsed == (if b.receipts == [] then 0 else b.receipts[|b.receipts| - 1].gasUsed)
            && c.scheme == e.scheme(h.number)
            && c.env == e.env(EnvInfo(number := h.number, author := h.author, timestamp := h.timestamp,
                                      difficulty := h.difficulty, lastHashes := b.lastHashes, gasUsed := c.gasUsed,
                                      gasLimit := h.gasLimit))
  {
    hide OldBalances;
  }

  /** How the action of a valid transaction ends. */
  ghost function ResultOf(e: Engine, b: ExecutedBlock, t: Transaction): VmResult
    requires e.Runs() && Validate(ContextOf(e, b, t), b.state, t, true).None?
  {
    ContextRuns(e, b, t);
    Perform(ContextOf(e, b, t), b.state, t).result
  }

  /** What the call tree of a valid transaction reports. */
  ghost function ReportOf(e: Engine, b: ExecutedBlock, t: Transaction): seq<CallEvent>
    requires e.Runs() && Validate(ContextOf(e, b, t), b.state, t, true).None?
  {
    ContextRuns(e, b, t);
    TransactionEvents(ContextOf(e, b, t), b.state, t)
  }

  /** The gas that settlement charges for. */
  ghost function GasPaid(e: Engine, b: ExecutedBlock, t: Transaction): nat
    requires e.Runs() && Validate(ContextOf(e, b, t), b.state, t, true).None?
  {
    ContextRuns(e, b, t);
    SettlementOf(ContextOf(e, b, t), b.state, t).gasUsed
  }

  lemma ExecutedTells(e: Engine, b: ExecutedBlock, t: Transaction)
    requires e.Runs() && Executes(e, b, t).1.Success?
    ensures Validate(ContextOf(e, b, t), b.state, t, true).None?
    ensures var executed, r := Executes(e, b, t).1.executed, ResultOf(e, b, t);
            && (executed.exception.None? <==> Accepts(r))
            && executed.logs == (if Accepts(r) then LogsOf(ReportOf(e, b, t)) else [])
            && executed.cumulativeGasUsed == GasUsed(b.receipts) + GasPaid(e, b, t)
  {
    hide Perform, TransactionEvents, LogsOf, Engine.Runs, OldBalances, Applied, Validate;
    ContextRuns(e, b, t);
    var c := ContextOf(e, b, t);
    ReportTells(c, b.state, t);
    ReportedGasIsPaid(c, b.state, t);
  }

  /** The receipt of an accepted push: its status says whether the action ended well, from EIP-658 on; where
      the block commits between transactions it holds the root of the state; its logs are those of the call
      tree, in order, if the action ended well, and none otherwise; its gas is what the author was paid for
      on top of the gas before. */
  lemma ReceiptTells(e: Engine, b: ExecutedBlock, t: Transaction, h: Option<Hash>)
    requires e.Runs() && Pushed(e, b, t, h).1.None?
    ensures Validate(ContextOf(e, b, t), b.state, t, true).None?
    ensures var b', r := Pushed(e, b, t, h).0, ResultOf(e, b, t);
            && |b'.receipts| == |b.receipts| + 1 && b'.receipts[..|b.receipts|] == b.receipts
            && b'.transactions == b.transactions + [t] && b'.uncles == b.uncles && b'.header == b.header
            && (b.traces.Disabled? ==> b'.traces.Disabled?)
            && (b.traces.Enabled? ==> b'.traces == Enabled(b.traces.traces + [TransactionTrace(t)]))
            && var receipt := b'.receipts[|b.receipts|];
               && (b.header.number >= e.eip658Transition ==> receipt.outcome == StatusCode(if Accepts(r) then 1 else 0))
               && (e.Commits(b.header.number) ==> receipt.outcome == StateRoot(e.stateRoot(b'.state.accounts)))
               && (b.header.number < e.eip658Transition && !e.Commits(b.header.number) ==> receipt.outcome == Unknown)
               && receipt.logs == (if Accepts(r) then LogsOf(ReportOf(e, b, t)) else [])
               && receipt.logBloom == e.logsBloom(receipt.logs)
               && receipt.gasUsed == GasUsed(b.receipts) + GasPaid(e, b, t)
  {
    hide Engine.Runs, Executes, LoadedBy, ResultOf, ReportOf, GasPaid, Accepts, LogsOf, ContextOf;
    ExecutedTells(e, b, t);
  }

  /** What the cache of the state remembers after a transaction: an account that it removed is remembered with
      no balance, so it is no dust when it comes back; an entry that it replaced is as it was replaced; and an
      account that it changed is waiting for the next commit. */
  lemma EntriesTell(e: Engine, b: ExecutedBlock, t: Transaction, m: Accounts, a: Address)
    ensures var entry, run := Get(LoadedAfter(e, b, t, m), a), EntriesOf(e, b, t);
            && (a in b.state.accounts && a !in m ==> entry == Some(Loaded(None, true)))
            && (a in m && a in run ==> entry == Some(run[a]))
            && (a in m && a !in run && Get(b.state.accounts, a) != Get(m, a) ==> entry.Some? && entry.value.dirty)
            && (a !in run && Get(b.state.accounts, a) == Get(m, a) ==> entry == Get(b.loaded, a))
  {
  }

  /** The block holds the first `k` transactions of the list on top of what it held. */
  predicate ArchivesFirst(b: ExecutedBlock, b': ExecutedBlock, ts: seq<Transaction>, k: nat) {
    && k <= |ts| && b'.transactions == b.transactions + ts[..k] && |b'.receipts| == |b.receipts| + k
    && b'.header == b.header
  }

  lemma ArchivesNext(b: ExecutedBlock, b1: ExecutedBlock, b': ExecutedBlock, ts: seq<Transaction>, k: nat)
    requires ts != [] && b1.transactions == b.transactions + [ts[0]] && |b1.receipts| == |b.receipts| + 1
    requires b1.header == b.header && ArchivesFirst(b1, b', ts[1..], k)
    ensures ArchivesFirst(b, b', ts, k + 1)
  {
    assert [ts[0]] + ts[1..][..k] == ts[..k + 1];
    assert b.transactions + [ts[0]] + ts[1..][..k] == b.transactions + ([ts[0]] + ts[1..][..k]);
  }

  lemma UnfoldPushedAll(e: Engine, b: ExecutedBlock, ts: seq<Transaction>)
    requires e.Runs()
    ensures PushedAll(e, b, ts) == if ts == [] then (b, None)
                                   else if Pushed(e, b, ts[0], None).1.Some? then Pushed(e, b, ts[0], None)
                                   else PushedAll(e, Pushed(e, b, ts[0], None).0, ts[1..])
  {
    hide Engine.Runs, Pushed;
  }

  /** Pushing a list archives its transactions in order, all of them or those in front of the first refusal. */
  lemma {:induction false} PushedAllArchives(e: Engine, b: ExecutedBlock, ts: seq<Transaction>) returns (k: nat)
    requires e.Runs()
    ensures ArchivesFirst(b, PushedAll(e, b, ts).0, ts, k)
    ensures PushedAll(e, b, ts).1.None? <==> k == |ts|
    decreases |ts|
  {
    hide Engine.Runs, Pushed, PushedAll, Executes;
    UnfoldPushedAll(e, b, ts);
    k := 0;
    if ts != [] {
      PushAppends(e, b, ts[0], None);
      var b1 := Pushed(e, b, ts[0], None).0;
      if Pushed(e, b, ts[0], None).1.None? {
        k := PushedAllArchives(e, b1, ts[1..]);
        ArchivesNext(b, b1, PushedAll(e, b, ts).0, ts, k);
        k := k + 1;
      }
    }
    assert k == 0 ==> b.transactions + ts[..k] == b.transactions;
  }

  // ----- rewards

  /** All that the rewards give to an account. */
  function RewardOf(rewards: seq<Reward>, a: Address): nat
    decreases |rewards|
  {
    if rewards == [] then 0
    else
      var n := |rewards| - 1;
      RewardOf(rewards[..n], a) + if rewards[n].0 == a then rewards[n].1 else 0
  }

  /** Every account gets the sum of its rewards, and nothing else changes. */
  lemma {:induction false} RewardsAreCredited(w: World, rewards: seq<Reward>, a: Address)
    ensures var w' := PayRewards(w, rewards);
            && w'.Balance(a) == Min(w.Balance(a) + RewardOf(rewards, a), MAX_U256)
            && Read(w', a) == Read(w, a).(balance := w'.Balance(a))
            && (RewardOf(rewards, a) == 0 ==> Get(w'.accounts, a) == Get(w.accounts, a))
    decreases |rewards|
  {
    if rewards != [] {
      RewardsAreCredited(w, rewards[..|rewards| - 1], a);
    }
  }

  // ----- locked blocks

  /** The header of a locked block describes the block itself: its transactions, uncles and receipts, its state
      after the rewards, the gas of its last receipt, and a bloom with exactly the bits of its receipts. Nothing
      else of the header, and none of the lists, changes on closing. */
  lemma LockedDescribesItself(e: Engine, b: ExecutedBlock, bit: nat)
    requires Locked(e, b).Some?
    ensures var l := Locked(e, b).value;
            var d := l.header.derived;
            && d.transactionsRoot == e.transactionsRoot(l.transactions)
            && d.unclesHash == e.unclesHash(l.uncles)
            && d.receiptsRoot == e.receiptsRoot(l.receipts)
            && d.stateRoot == e.stateRoot(l.state.accounts)
            && d.gasUsed == (if l.receipts == [] then 0 else l.receipts[|l.receipts| - 1].gasUsed)
            && (bit in d.logBloom <==> exists i | 0 <= i < |l.receipts| :: bit in l.receipts[i].logBloom)
            && l.header == b.header.(derived := d)
            && l.transactions == b.transactions && l.receipts == b.receipts && l.uncles == b.uncles
            && l.transactionsSet == b.transactionsSet && l.lastHashes == b.lastHashes
            && (if e.closeStep(b).Rewards? then l.state == PayRewards(e.closeStep(b).state, e.closeStep(b).rewards)
                else l.state == b.state)
  {
    hide Blooms, PayRewards;
    BloomCovers(b.receipts, bit);
  }

  // ----- uncles

  /** A block never has more uncles than its number allows, takes an uncle while there is room, and loses none. */
  lemma StepKeepsUncles(e: Engine, b: ExecutedBlock, step: Step)
    requires e.Runs() && Stepped(e, b, step).Some? && |b.uncles| <= e.maximumUncleCount(b.header.number)
    ensures var b' := Stepped(e, b, step).value;
            && |b'.uncles| <= e.maximumUncleCount(b.header.number) && b'.header.number == b.header.number
            && b'.uncles == (if step.PushUncle? && |b.uncles| < e.maximumUncleCount(b.header.number)
                             then b.uncles + [step.uncle] else b.uncles)
  {
    hide Engine.Runs, Executes, LoadedBy, Blooms, PayRewards;
  }

  lemma {:induction false} RunKeepsUncles(e: Engine, b: ExecutedBlock, steps: seq<Step>)
    requires e.Runs() && Run(e, b, steps).Some? && |b.uncles| <= e.maximumUncleCount(b.header.number)
    ensures var b' := Run(e, b, steps).value;
            && |b'.uncles| <= e.maximumUncleCount(b.header.number) && b'.header.number == b.header.number
            && b.uncles <= b'.uncles
    decreases |steps|
  {
    if steps == [] {
      hide Stepped;
    } else {
      hide *;
      RunLast(e, b, steps);
      RunKeepsUncles(e, b, steps[..|steps| - 1]);
      StepKeepsUncles(e, Run(e, b, steps[..|steps| - 1]).value, steps[|steps| - 1]);
    }
  }
}
