# A verified model of the Origo execution core

Origo is a Parity-Ethereum fork with private transactions and Equihash mining. This project models the
parts of it on which consensus rests, and proves what they promise.

- **The call/create executive.** `Executive` and `Externalities` describe nested calls as direct recursion.
  `CallStack.Machine.Consume` is the loop of the node: an explicit stack of suspended executives with traps
  and resumption. It is proved to give the state, the substate and the result of the direct recursion, for
  every virtual machine. `CallTree` proves what every call tree keeps, `CallEvents` what it reports (logs, refunds,
  contracts), `ActionEffects` what its single steps do to the accounts, and `Messages` with which parameters nested
  actions run.
- **Transactions.** `Transact` adds validation, the up-front charge, refunds, fees, suicides and garbage
  collection around the top action; `TransactionLaws` says what that means for nonces, refunds, reports and the final
  sweep, and `SettlementExamples` holds concrete transactions at the edges of settlement.
- **The account state.** `WorldState` is a map of accounts with a stack of snapshots. `AccountJournal` is the
  real structure, a cache with copy-on-first-write checkpoints, and refines it operation by operation; it also
  holds cloning, committing and the hand-over to the shared cache.
- **The canonical account cache.** `AccountCache` and `StateDb` model the cache that all database clones share,
  on a growing tree of blocks with reorganisations, and `CacheContents` says exactly what it holds and for whom it
  answers; `BlockTree` holds the facts about the tree.
- **Equihash.** `IndexPacking` models the bit accumulator, `Equihash` the verification over two swapped byte
  buffers, `EquihashLaws` what acceptance means. The parameters are N = 192 and K = 7; the scheme is the one of
  section 7.7.1 ("Equihash") of the Zcash Protocol Specification.
- **Block building.** `BlockBuilding` models pushing, closing, reopening and locking, with the balances under which
  the state's cache remembers its accounts; `BlockLaws` says what receipts, rewards and headers tell about the block,
  and `DustExamples` shows when closing and reopening is visible.
- **Kernels.** `Modexp` and `ModexpLaws` (EIP-198), `Boundary` (difficulty and boundary) and `PodDiff` (state differences).

`Primitives` and `Bits` hold words, byte strings, and arithmetic of bits and digits.

## How the outside is modelled

- A virtual machine is a function from its parameters, its depth and the responses it has seen to its next
  request. `Env.Terminating` says that its gas ends every run. `GasMetered` says that it stops with at most its
  own gas if its nested actions do; it is needed only where gas is bounded.
- Contract addresses, builtins, hashes, trie roots and blooms are functions of their inputs. Where balances are
  counted, `FreshAddresses` says that a new contract address is not that of its creator.
- There are no trie errors. An account that is missing is `None` in the caches and absent from the map.
- 256-bit balances saturate on addition and must not underflow on subtraction, as in the source; the latter is a
  proof obligation of every caller. Block numbers and gas sums are unbounded:
  overflow of their words is not modelled.
- Equihash hashes are any function from numbers to 48 bytes.
- The engine's close step is any function of the block that reads neither computed header fields, traces nor loaded
  balances.
- A block knows the cache entries of its state as far as dust cleaning and cloning read them: the balance with which
  an account was loaded, and whether the entry is dirty. Accounts that a transaction changes or kills have the entry
  that follows from their accounts before and after it. The other entries that a transaction leaves, those of contract
  creations and those written without a change, are a function of its inputs (`Engine.entries`).

## What the proofs found

- `distinct_indices` sets its inner cursor once, outside the outer loop, so only the first index of the left row
  is compared. `EquihashLaws.KeptApartIff` says exactly which positions acceptance keeps apart over all hash
  functions. For every other pair of positions it builds a solution that repeats an index and that the all-zero
  hash accepts; `EquihashLaws.SolutionsKeptApartIff` gives it as 400 bytes.
- Closing and reopening a block is visible when the block cleans dust. Reopening goes on with a clone of the state, and
  cloning forgets the cache entries that are not dirty, with the balances under which they remembered their accounts;
  dust is what has fallen below that balance. `DustExamples.ReopeningSparesDust` has two transactions after which the
  locked blocks differ in their state root, once with a commit after each transaction and once, without commits, after
  a reverted creation (`AccountJournal.RevertedCreate`). `DustExamples.InvisibleIff` says that closing and reopening is
  invisible in every run of every fresh block if and only if dust cleaning is off, or nothing is committed between
  transactions and no transaction leaves a clean entry with an outdated balance.
- Reopening a closed block does not take back the reward trace that closing recorded. Where closing and reopening is
  invisible, `BlockBuilding.ReopeningIsInvisible` shows that the traces agree too if and only if tracing is off or no
  closing pays rewards.
- The overflow error at settlement needs private input and a gas cost above the largest word
  (`Transact.OverflowNeedsPrivateInput`), and is certain above twice that (`Transact.OverflowIsCertain`). Only in
  between does it depend on how the run splits the gas: `SettlementExamples.OverflowDependsOnRun` is one
  transaction in one state that one machine makes overflow and another does not.
- A refused transaction is not always without effect. A push refused by its hash or by validation leaves the block
  alone; one refused by the overflow error keeps what its action did, and one refused by an internal error keeps it
  settled (`BlockBuilding.RefusedPush`). `SettlementExamples.RefusalKeepsPayment` is a refused transaction whose
  payment stays.
- The gas of a transaction with private input is paid out without having been charged, and an account that destroys
  itself in its own favour burns its balance; `Transact.TransactionConserves` accounts for both.
- The account bloom's shortcut hides an account that is stored although it is empty; it shows the right state if and
  only if the address really has no account (`AccountJournal.BloomShortcutIff`).
- A reopened block is committed by a database clone that has lost its parent hash, so the shared cache does not learn
  about the block. The second synchronisation of a sealed block finds it unknown and wipes the cache; before and
  after that every answer of the cache is right (`AccountCache.CacheIsSound`).
- The shared cache can hold an account of the head and still not answer for it: a listed block of the same height or
  above that changed the account hides it (`CacheContents.SideBlockHides`). `CacheContents.BestCommitAnswers` and
  `CacheContents.HeadAnswersIff` say exactly when the head answers.
- A transaction is not refused for its nonce a second time when nonces saturate: at the largest word a failed
  transaction leaves the nonce in place (`TransactionLaws.FailedReplayIff`). With dust cleaning off, a sender that
  destroyed itself starts again with its first nonce (`TransactionLaws.ReplayWithoutSender`). In every other case the
  same transaction is refused (`TransactionLaws.NotReplayed`).
- A state difference loses a change of code when the code is known on one side only (`PodDiff.DiffPatches`).

## Model

| member | source | states |
|---|---|---|
| WorldState.SupplyAdd | ethcore/src/state/mod.rs:743-755 | Adding to a balance raises the total by that amount while the balance fits a word, and never by more. |
| WorldState.SupplySub | ethcore/src/state/mod.rs:758-767 | Subtracting an affordable amount lowers the total by exactly that amount. |
| WorldState.SupplyTransfer | ethcore/src/state/mod.rs:781-785 | A transfer conserves the total when it fits the word size and never increases it. |
| WorldState.SupplyKill | ethcore/src/state/mod.rs:513-515 | Killing an account lowers the total by its balance. |
| Externalities.CallRequest | ethcore/evm/src/interpreter/mod.rs:552-610 | A nested call is asked for only below the depth limit and with enough balance. |
| Externalities.CreateRequest | ethcore/evm/src/interpreter/mod.rs:505-550 | A nested create is asked for only outside static frames, below the depth limit and with enough balance, for the address it announces. |
| Externalities.Serve | ethcore/src/externalities.rs:115-427 | Every nested action that any request leads to is affordable and below the depth limit; a static frame never creates. |
| Externalities.FrameExternalities.SetStorage | ethcore/src/externalities.rs:131-137 | Writes storage in place as the request does; refused in a static frame, with no effect. |
| Externalities.FrameExternalities.Log | ethcore/src/externalities.rs:353-368 | Appends a log entry in place; refused in a static frame, with no effect. |
| Externalities.FrameExternalities.Suicide | ethcore/src/externalities.rs:370-394 | Moves the whole balance to the beneficiary, or destroys it when that is the account itself, and records the suicide. |
| Externalities.FrameExternalities.AddSstoreRefund | ethcore/src/externalities.rs:408-410 | Raises the refund counter of the frame only. |
| Externalities.FrameExternalities.SubSstoreRefund | ethcore/src/externalities.rs:412-414 | Lowers the refund counter of the frame only, possibly below zero. |
| Externalities.FrameExternalities.Ret | ethcore/src/externalities.rs:330-351 | Ends a frame: a create that keeps its state pays for its code and stores it, or fails, or keeps the gas, by the schedule. |
| Externalities.FrameExternalities.Create | ethcore/src/externalities.rs:213-265 | Behind the interpreter's guards it leaves the state and parameters of the nested create; a static frame keeps its nonce. |
| Externalities.FrameExternalities.Call | ethcore/src/externalities.rs:267-316 | Gives the parameters of the nested call, by call type, without changing the state. |
| Externalities.FrameExternalities.Dispatch | ethcore/evm/src/interpreter/mod.rs:505-650 | Serves any request in place, with the interpreter's guards, as the model does. |
| Externalities.FrameExternalities.Run | ethcore/src/executive.rs:457-478 | The in-place loop over requests ends exactly where the model's run to the trap ends, with its state, substate and history. |
| Executive.NewCallRaw | ethcore/src/executive.rs:223-250 | A new call is a fresh executive of its depth, static exactly if its parent is or if it is a static call. |
| Executive.NewCreateRaw | ethcore/src/executive.rs:253-264 | A new create is a fresh executive of its depth and static flag. |
| Executive.Prepare | ethcore/src/executive.rs:374-527 | Only calls with code and creates start a virtual machine, and the frame is the executive's own. |
| Externalities.RunToTrap | ethcore/src/executive.rs:457-478 | A machine runs to a request that is not answered in place, with its parameters unchanged. |
| Executive.Continue | ethcore/src/executive.rs:538-611 | A trapped executive differs from the running one only in what it waits for. |
| CallTree.PrepareCheckpoints | ethcore/src/executive.rs:374-527 | Exactly the actions that start a machine leave one checkpoint open, holding the state at entry; a refused one restores the state. |
| CallTree.DirectKeepsCheckpoints | ethcore/src/externalities.rs:213-316 | A whole call tree leaves the stack of open checkpoints as it found it. |
| CallTree.ContinueCheckpoints | ethcore/src/executive.rs:330-350 | A frame closes its checkpoint when it ends and keeps it while it is suspended. |
| CallTree.FailedActionLeavesNoTrace | ethcore/src/executive.rs:330-350 | At every depth, a failed or reverted action leaves accounts and checkpoints as at entry and adds nothing but touched addresses to its parent's substate. |
| CallTree.InteractStatic | ethcore/src/externalities.rs:131-394 | A request of a static frame changes nothing readable, asks for no create, and its calls move no value away. |
| CallTree.PrepareStatic | ethcore/src/executive.rs:277-328 | Starting a static action changes nothing readable, and a static create never starts. |
| CallTree.StaticActionChangesNothing | ethcore/src/executive.rs:714-742 | A static action and all its descendants leave balances, nonces, code and storage unchanged and add no log, suicide or contract (EIP-214). |
| CallTree.ActionStaysWithinGas | ethcore/src/executive.rs:374-611 | No call tree returns more gas than its root was given. |
| CallTree.TransferConserves | ethcore/src/executive.rs:302-313 | The value transfer of a call moves the total by what crosses the private border and nothing else. |
| CallTree.EndowmentConserves | ethcore/src/executive.rs:315-328 | Endowing a new contract conserves the total. |
| CallTree.ActionConserves | ethcore/src/executive.rs:302-611 | Over a whole call tree the total of balances changes by exactly what crosses the private border less what suicides in their own favour burn; a rejected tree does not change it, and without suicides nothing burns. |
| CallEvents.RequestReports | ethcore/src/externalities.rs:353-394 | What a request adds to the substate is its own events: a log entry, a change of the refund counter, or touched accounts and a suicide; a static frame logs nothing. |
| CallEvents.ReplayAccrues | ethcore/src/state/substate.rs:51-57 | Accruing the substate of an action is replaying its events one by one on the substate of the parent. |
| CallEvents.FrameReports | ethcore/src/executive.rs:374-611 | The substate of a machine is the replay, in order, of its requests, of its nested actions and of the contracts that these deployed. |
| CallEvents.ActionReports | ethcore/src/executive.rs:330-350 | An action leaves its parent the replay of its events: what its value transfer touches and, unless it is rejected, what its machine reports. |
| CallEvents.ActionAdds | ethcore/src/executive.rs:330-350 | An action adds exactly the logs, refunds, contracts and suicides of its call tree, in order, and a rejected one adds none. |
| CallEvents.ActionTouches | ethcore/src/executive.rs:302-350 | What was touched before an action or by its value transfer stays touched, even if the action is rejected. |
| ActionEffects.TransferMoves | ethcore/src/executive.rs:302-313 | A payment lowers the sender and raises the recipient by its amount unless that side is private, and changes nothing else of any account. |
| ActionEffects.SettledTransfer | ethcore/src/executive.rs:376-390 | A call without code moves its value, keeps its gas and succeeds, unless it pays out of a static frame; then nothing happens. |
| ActionEffects.EmptyPayment | ethcore/src/state/substate.rs:60-66 | Paying nothing creates a missing recipient before EIP-161 only, and touches an existing one when empty accounts or dust are cleaned. |
| ActionEffects.EndowmentMoves | ethcore/src/executive.rs:315-328 | A new contract has the old balance of its address and the endowment, a fresh nonce, no code and no storage; the endowment comes from the sender. |
| ActionEffects.CreationNeedsFreeAddress | ethcore/src/executive.rs:293-300 | A creation starts only where there is neither code nor nonce and outside static frames; else it fails and changes nothing. |
| ActionEffects.CreationDepositsCode | ethcore/src/externalities.rs:330-351 | The code of a creation is stored and paid by the byte, or it is too dear or too long, is not stored, and fails the creation unless the schedule forgives it. |
| ActionEffects.OtherEndsKeepWorld | ethcore/src/externalities.rs:330-351 | Every other end of a frame changes no account and hands on its gas and data. |
| ActionEffects.BuiltinRuns | ethcore/src/executive.rs:392-440 | A builtin costs its price and answers, or fails for lack of gas or on its input; only when it answers does the value move. |
| ActionEffects.AcceptedKeepsChanges | ethcore/src/executive.rs:330-350 | An action that is not rejected leaves the accounts as its machine left them. |
| ActionEffects.AnswersTellTheResult | ethcore/src/executive.rs:86-110 | The caller learns whether a nested action ended well, reverted or failed, with its gas, its data and its address. |
| ActionEffects.SuicideMoves | ethcore/src/externalities.rs:370-394 | A suicide empties the account, pays the beneficiary or nobody, changes no other account, and is remembered. |
| ActionEffects.CallIsMadeIff | ethcore/evm/src/interpreter/mod.rs:552-610 | A call is made if and only if depth and balance allow it; paying out of a static frame ends the machine. |
| ActionEffects.CreationTakesNonce | ethcore/src/externalities.rs:213-265 | A creation gets the address of the sender's nonce and uses that nonce up. |
| ActionEffects.StorageReadsBack | ethcore/src/externalities.rs:127-137 | A machine reads back what it wrote, and nothing else of any account changes. |
| ActionEffects.ReadsAgree | ethcore/src/externalities.rs:143-157 | The reading requests agree with each other and with the account. |
| ActionEffects.BlockHashWindow | ethcore/src/externalities.rs:159-211 | The hashes of the last 256 blocks are given and no others. |
| Messages.CallIsLikeTransaction | ethcore/src/externalities.rs:267-316 | A nested call has the parameters of a transaction from the calling account with the same recipient, value, data and gas; origin and price are the frame's. |
| Messages.CreateIsLikeTransaction | ethcore/src/externalities.rs:213-265 | A nested creation has the parameters and the address of a creating transaction of the same sender and nonce. |
| Messages.TransactionsStart | ethcore/src/executive.rs:862-1000 | Who pays whom, whose code runs and what is private, for the five kinds of transactions. |
| Messages.CallRunsCodeOfCallee | ethcore/src/externalities.rs:267-316 | A nested call runs the code that reading the called account shows, with the given gas and data. |
| Messages.CallCodeIsCallAtHome | ethcore/evm/src/interpreter/mod.rs:552-610 | CALLCODE is CALL on the caller's own account. |
| Messages.StaticCallIsCallWithoutValue | ethcore/evm/src/interpreter/mod.rs:552-610 | STATICCALL is CALL without value. |
| Messages.DelegateCallKeepsCaller | ethcore/evm/src/interpreter/mod.rs:552-610 | DELEGATECALL keeps the sender, the account and the apparent value of the caller and replaces code, gas and data. |
| Messages.DelegateCallIsPublic | ethcore/src/externalities.rs:287-302 | A delegate call out of a private frame is public and otherwise the same. |
| CallStack.RunToTrapAgrees | ethcore/src/executive.rs:457-482 | Stopping a frame at its trap does not change what its direct recursion computes. |
| CallStack.PopAgrees | ethcore/src/executive.rs:634-709 | Resuming the top of the stack and reporting to the entry below it is one return of the direct recursion. |
| CallStack.CallTrapAgrees | ethcore/src/executive.rs:710-728 | A call trap pushed on the stack computes what the nested direct call computes. |
| CallStack.CreateTrapAgrees | ethcore/src/executive.rs:729-747 | A create trap pushed on the stack computes what the nested direct create computes, including the contract it reports. |
| CallStack.ContinueAgrees | ethcore/src/executive.rs:538-611 | Running to a trap and unwinding is running by direct recursion, for every stack below. |
| CallStack.ExecAgrees | ethcore/src/executive.rs:374-535 | Executing a fresh executive and going on from its trap is its direct recursion. |
| CallStack.ResumeAgrees | ethcore/src/executive.rs:538-611 | Resuming a waiting executive is one step of unwinding. |
| CallStack.NothingAgrees | ethcore/src/executive.rs:620-633 | The branch that executes the top of the stack keeps the loop invariant, the rest of the work and the checkpoint count. |
| CallStack.ReturnedAgrees | ethcore/src/executive.rs:634-709 | The branch that resumes: the top waits for exactly the kind of result it gets, and the invariant is kept. |
| CallStack.TrappedAgrees | ethcore/src/executive.rs:710-747 | The branches that push keep the invariant, the rest of the work and the checkpoint count. |
| CallStack.RunFrame | ethcore/src/executive.rs:457-482 | Running a frame in place gives the model's result or trap, with the suspended executive. |
| CallStack.Execute | ethcore/src/executive.rs:374-535 | Executing a fresh executive in place gives the model's result or trap. |
| CallStack.ResumeAfterCall | ethcore/src/executive.rs:538-572 | Resuming with a call result in place gives the model's result or trap. |
| CallStack.ResumeAfterCreate | ethcore/src/executive.rs:577-611 | Resuming with a create result in place gives the model's result or trap. |
| CallStack.Machine.Consume | ethcore/src/executive.rs:614-750 | The explicit-stack loop terminates, reaches no panic, and leaves the state, substate and result of the direct recursion. |
| Transact.TopAction | ethcore/src/executive.rs:869-1000 | The top action of every kind of transaction is fresh, not static, and has the gas left after the base cost. |
| Transact.TopActionAffordable | ethcore/src/executive.rs:851-860 | The affordability check covers the value after the gas has been charged. |
| Transact.GasSuffices | ethcore/src/executive.rs:1189-1191 | A finished top action has at most the gas left that it started with. |
| Transact.SettlementSplitsGasCost | ethcore/src/executive.rs:1181-1198 | Refund and fees add up to gas times price, and refunds leave at least half of the gas used. |
| Transact.OverflowNeedsPrivateInput | ethcore/src/executive.rs:1193-1198 | The overflow error comes exactly when refund or fees overflow, and then the input is private and the gas cost exceeds the largest word. |
| Transact.OverflowIsCertain | ethcore/src/executive.rs:1193-1198 | A gas cost above twice the largest word always ends in the overflow error, whatever the run does, and only private input gets that far. |
| SettlementExamples.OverflowDependsOnRun | ethcore/src/executive.rs:1193-1198 | Between one and two largest words it depends on the run: one valid transaction overflows if and only if its machine fails. |
| Transact.RefusedLate | ethcore/src/executive.rs:1193-1227 | After validation only two errors come: overflow, which leaves the state of the action, and internal, which leaves it settled. |
| SettlementExamples.RefusalKeepsPayment | ethcore/src/executive.rs:1193-1198 | A concrete valid private call is refused by the overflow error, and the public payment it made stays. |
| Transact.FailedTopAction | ethcore/src/executive.rs:1006-1048 | A failed top action leaves the charged state and an empty substate up to touched accounts. |
| Transact.ReportedGasIsPaid | ethcore/src/executive.rs:1182-1256 | In every outcome the reported gas times the price is the fee of the settlement; a failure reports no refund, log or contract. |
| Transact.AuthorIsCredited | ethcore/src/executive.rs:1204-1213 | The author is credited with exactly the reported gas times the price, and with the unused gas when it is the sender, or the private side of private input; it keeps that unless destroyed or collected. |
| Transact.SettlementPays | ethcore/src/executive.rs:1205-1222 | After settlement an account has what the action left it, the price of the unused gas if it is the sender (the private side for private input), and the price of the used gas if it is the author; it disappears only by suicide or collection, and by suicide always. |
| Transact.SenderIsRefunded | ethcore/src/executive.rs:1205-1211 | With public input the unused gas goes back to the sender; after a rejected action it has paid for the used gas and nothing else. |
| Transact.PrivateSideIsRefunded | ethcore/src/executive.rs:1207-1208 | With private input the unused gas goes to the account of the private side. |
| Transact.GasUsedBounds | ethcore/src/executive.rs:825-849 | Reported gas is at least half the base gas and at most the limit of the transaction; the cumulative gas stays within the block limit. |
| Transact.FailedTransactionOnlyPays | ethcore/src/executive.rs:1170-1256 | A transaction whose action failed only bumps the nonce, pays for its gas and collects garbage. |
| Transact.GarbageIsEmpty | ethcore/src/state/mod.rs:945-962 | With dust cleaning off, garbage collection removes only accounts without balance. |
| Transact.ChargeSupply | ethcore/src/executive.rs:862-1000 | The up-front charge lowers the total by gas times price, for public input only. |
| Transact.PayOutSupply | ethcore/src/executive.rs:1205-1213 | Refund and fees raise the total by exactly their sum. |
| Transact.NoOverflow | ethcore/src/executive.rs:1193-1198 | When the supply and what private input mints fit the word size, the overflow error cannot happen. |
| Transact.TransactionConserves | ethcore/src/executive.rs:813-1256 | While the supply fits the word size a transaction cannot overflow, and the sum of balances changes by exactly what crosses the private border and the gas of private input, less what suicides burn and what killed accounts held; nothing burns without suicides, and killed accounts held nothing when moreover dust cleaning is off. |
| Transact.AppliedKeepsCheckpoints | ethcore/src/executive.rs:813-1256 | A transaction closes every checkpoint that it opens. |
| Transact.SupplyKillAll | ethcore/src/executive.rs:1215-1222 | Killing a set of accounts lowers the total by exactly what they held. |
| Transact.AppliedIgnoresLoaded | ethcore/src/state/mod.rs:945-962 | With dust cleaning off, neither the state nor the report of a transaction depends on the balances with which accounts were loaded. |
| TransactionLaws.DataGasCounts | ethcore/src/transaction_ext.rs:37-42 | Zero bytes and other bytes of the data are counted and priced apart. |
| TransactionLaws.ValidIff | ethcore/src/executive.rs:820-862 | A transaction is refused exactly when gas, block limit, nonce, existence or balance say so, and the error names the reason. |
| TransactionLaws.ChargeMoves | ethcore/src/executive.rs:862-880 | The charge takes the price of the gas and one nonce from the sender, nothing from anybody else, and nothing at all with private input. |
| TransactionLaws.ActionKeepsNonce | ethcore/src/executive.rs:293-611 | In a whole call tree no account disappears and no nonce falls. |
| TransactionLaws.NotReplayed | ethcore/src/executive.rs:836-840 | An applied transaction had its sender's nonce, and the same transaction is refused for its nonce afterwards, while the sender exists and below the largest nonce. |
| TransactionLaws.ReplayWithoutSender | ethcore/src/executive.rs:830-832 | A sender that is gone is refused where dust is cleaned; elsewhere only its suicide can have removed it. |
| TransactionLaws.FailedReplayIff | ethcore/src/executive.rs:836-840 | A failed transaction passes the nonce check again if and only if its nonce is the largest word. |
| TransactionLaws.RefundIsLargest | ethcore/src/executive.rs:1181-1191 | The refund is the largest amount within the counters whose double is within the gas used. |
| TransactionLaws.ReportTells | ethcore/src/executive.rs:1224-1256 | The report says how the action ended; its logs and contracts are those of the call tree, in order, if it ended well, and none otherwise. |
| TransactionLaws.CollectedIff | ethcore/src/state/mod.rs:945-962 | Exactly which touched accounts are collected as empty or as dust. |
| TransactionLaws.SweepLeavesNoEmpty | ethcore/src/executive.rs:1215-1222 | After a transaction no touched account is empty where empty accounts are cleaned, and no account that destroyed itself is left. |
| TransactionLaws.SenderIsTouched | ethcore/src/executive.rs:862-880 | The paying sender is looked at by the final sweep. |
| TransactionLaws.PayingNothing | ethcore/src/executive.rs:1205-1213 | A fee of zero creates a missing author before EIP-161 only; a refund of zero creates nobody. |
| Transact.TransactionExecutor.TransactWithTracer | ethcore/src/executive.rs:813-1000 | A transaction refused by validation leaves the state alone; any other has the effect and the report of the model, which may be a late refusal. |
| Transact.TransactionExecutor.Finalize | ethcore/src/executive.rs:1170-1256 | Refund, fees, suicides and garbage collection in place, or the overflow error. |
| Transact.TransactionExecutor.KillAccounts | ethcore/src/executive.rs:1215-1222 | Removes exactly the given accounts. |
| AccountJournal.NotedKeepsSnapshots | ethcore/src/state/mod.rs:459-480 | Noting an entry in the last checkpoint before overwriting it keeps every saved state. |
| AccountJournal.MergeUndoesBoth | ethcore/src/state/mod.rs:414-428 | Two checkpoints merged, the older winning, undo what they undo one after the other. |
| AccountJournal.MergeKeepsSnapshots | ethcore/src/state/mod.rs:414-428 | Discarding a checkpoint keeps the older saved states. |
| AccountJournal.RevertedView | ethcore/src/state/mod.rs:431-456 | Restoring the recorded entries shows the state at the checkpoint. |
| AccountJournal.State.FromExisting | ethcore/src/state/mod.rs:383-398 | A state over a database shows the database and has no checkpoint. |
| AccountJournal.State.Clone | ethcore/src/state/mod.rs:1318-1340 | A clone shows the same accounts, has the dirty entries and no others, and no checkpoint. |
| AccountJournal.State.Checkpoint | ethcore/src/state/mod.rs:406-411 | Opening a checkpoint saves the current state. |
| AccountJournal.State.DiscardCheckpoint | ethcore/src/state/mod.rs:414-428 | Discarding drops the last saved state and changes nothing else. |
| AccountJournal.State.MergeInto | ethcore/src/state/mod.rs:418-426 | Entries move into the older checkpoint, which keeps its own. |
| AccountJournal.State.RevertToCheckpoint | ethcore/src/state/mod.rs:431-456 | Reverting brings back the last saved state exactly; every recorded entry is restored but for its loaded balance. |
| AccountJournal.State.InsertCache | ethcore/src/state/mod.rs:459-471 | Inserting an entry shows it and keeps every saved state. |
| AccountJournal.State.NoteCache | ethcore/src/state/mod.rs:474-480 | After noting an entry it can be replaced without losing a saved state. |
| AccountJournal.State.EnsureCached | ethcore/src/state/mod.rs:1146-1192 | Reading an account, from whichever cache, the account bloom or the trie, returns it and changes no visible state; what comes from the trie is cached, and nothing else. |
| AccountJournal.State.Load | ethcore/src/state/mod.rs:1206-1222 | Loading an account into the cache, from the shared cache, the bloom or the trie, changes no visible or saved state. |
| AccountJournal.State.Require | ethcore/src/state/mod.rs:1195-1248 | Changing a required account changes that account and nothing else, creating it when missing; its entry is dirty then and remembers the balance of its first load. |
| AccountJournal.State.Touch | ethcore/src/state/mod.rs:888-891 | Touching an existing account dirties its entry, keeps every saved state and shows the same accounts. |
| AccountJournal.State.AddBalance | ethcore/src/state/mod.rs:743-755 | Refines the addition on the abstract state; an existing account that is given nothing is touched when touched accounts are tracked. |
| AccountJournal.State.SubBalance | ethcore/src/state/mod.rs:758-767 | Refines the subtraction on the abstract state. |
| AccountJournal.State.IncNonce | ethcore/src/state/mod.rs:788-790 | Refines the nonce increment. |
| AccountJournal.State.SetStorage | ethcore/src/state/mod.rs:793-800 | Refines the storage write, including the case that writes nothing. |
| AccountJournal.State.InitCode | ethcore/src/state/mod.rs:804-807 | Refines the code deposit. |
| AccountJournal.State.NewContract | ethcore/src/state/mod.rs:501-510 | Refines contract creation over an old account. |
| AccountJournal.State.KillAccount | ethcore/src/state/mod.rs:513-515 | Refines the removal of an account. |
| AccountJournal.CommitWritesView | ethcore/src/state/mod.rs:894-928 | Writing the dirty entries makes the database what the cache showed on top of it. |
| AccountJournal.State.Commit | ethcore/src/state/mod.rs:894-928 | Committing writes the visible accounts to the database, shows the same accounts, and keeps every entry, no longer dirty and with its loaded balance. |
| AccountJournal.State.Drop | ethcore/src/state/mod.rs:931-938 | Exactly the entries that were committed or read from the trie are handed over to the shared cache; they hold the state of the block, name each address once, are marked when committed, and mark every account that differs from the parent state. |
| AccountJournal.RevertedCreate | ethcore/src/state/mod.rs:178-192 | A reverted creation over an account shows the old state but leaves a clean entry that remembers the balance of the creation; a clone forgets it and loads the account with its own balance. |
| AccountJournal.BloomShortcutIff | ethcore/src/state/mod.rs:1146-1192 | Taking an address for empty without looking shows the same state if and only if the database has no account there. |
| AccountCache.Find | ethcore/src/state_db.rs:232-245 | The first entry of a block, or the end of the list. |
| AccountCache.InsertAt | ethcore/src/state_db.rs:305-311 | The first entry with a smaller number, or the end of the list. |
| AccountCache.AllowedAgrees | ethcore/src/state_db.rs:382-406 | Where the walk says yes, the account in the parent's state is the one in the head state, though the parent may be on a fork. |
| AccountCache.LookupSound | ethcore/src/state_db.rs:382-438 | A cached account given to a clone on top of a block, canonical or not, is the account in that block's state. |
| AccountCache.AllowedOnCanonical | ethcore/src/state_db.rs:382-406 | On a canonical parent the answer is given exactly when no entry in front lists the account. |
| AccountCache.MarkAllEffect | ethcore/src/state_db.rs:232-262 | Marking along a route sets the flags of exactly those blocks, drops all of their accounts and alters no other. |
| AccountCache.RouteKeepsAccount | ethcore/blockchain/src/import_route.rs:44-68 | An account that no block of a route touched is the same at both ends of the route. |
| AccountCache.RouteTracksChain | ethcore/src/state_db.rs:232-262 | Marking enacted and retracted blocks makes the flags true exactly on the new chain. |
| AccountCache.PurgeReroutes | ethcore/src/state_db.rs:229-268 | Purging along the route from the old head leaves a cache that fits the new parent, or an empty one. |
| AccountCache.ResyncKeeps | ethcore/src/client/client.rs:2886-2888 | A second synchronisation along a route already taken keeps the invariant. |
| AccountCache.PropagateAllAgrees | ethcore/src/state_db.rs:279-295 | Propagating the local cache of the new head makes every cached account that of the new head. |
| AccountCache.AddSideBlock | ethcore/src/state_db.rs:270-312 | Committing a block that is not the best one keeps the invariant. |
| AccountCache.AddBestBlock | ethcore/src/state_db.rs:270-312 | Committing the new best block gives the invariant for the new head. |
| AccountCache.DetachedKeeps | ethcore/src/state_db.rs:224-313 | A commit by a clone without a parent hash leaves a cache that fits the parent block and does not list the new one. |
| AccountCache.UnknownHeadWipes | ethcore/src/state_db.rs:263-268 | Synchronising along a route with an unlisted block empties the cache. |
| AccountCache.EventKeepsInv | ethcore/src/state_db.rs:224-313 | Every synchronisation, with or without a parent hash, keeps: at most 12 entries in order of number, flags true exactly on the chain, no gap above a canonical entry, cached accounts equal to the state of the block last synchronised with. |
| AccountCache.RunKeepsInv | ethcore/src/state_db.rs:224-313 | The invariant holds after every legal sequence of commits by both kinds of clones, reorganisations, resynchronisations and evictions. |
| AccountCache.CacheIsSound | ethcore/src/state_db.rs:224-438 | After every such sequence, whatever the cache answers for a parent is the account in the parent's state. |
| CacheContents.PropagateFills | ethcore/src/state_db.rs:285-297 | A best block adds the addresses of its local cache to the shared cache and removes none. |
| CacheContents.PurgeSpares | ethcore/src/state_db.rs:229-268 | A synchronisation keeps exactly the cached accounts that no block of the route changed, and wipes the cache for a block that is not listed. |
| CacheContents.EventCachesIff | ethcore/src/state_db.rs:224-313 | After an event exactly those addresses are cached that it brought, or that were cached and it did not drop. |
| CacheContents.RunCachesIff | ethcore/src/state_db.rs:224-313 | After any run exactly those addresses are cached that a commit of a head brought and nothing dropped since, besides those cached from the start. |
| CacheContents.CanonicalAnswerIs | ethcore/src/state_db.rs:382-438 | On a block of the chain the cache answers exactly for the cached accounts that no entry in front of the block names, with its state. |
| CacheContents.AnswerIs | ethcore/src/state_db.rs:382-438 | On any block, canonical or not, the cache answers if and only if the account is cached and the walk back reaches the chain over listed blocks before an entry names the account. |
| CacheContents.BestCommitAnswers | ethcore/src/state_db.rs:224-438 | On a newly committed head the cache answers with its state exactly for what the block brought along or the route spared, unless a listed block at the same height or above names the account. |
| CacheContents.HighestBlockAnswers | ethcore/src/state_db.rs:224-438 | A new head above all listed blocks answers for every account of its local cache. |
| CacheContents.HeadAnswersIff | ethcore/src/state_db.rs:224-438 | After every legal run from an empty cache, exactly which addresses are answered for on the head. |
| CacheContents.SideBlockHides | ethcore/src/state_db.rs:382-406 | A side block of the same height that changed an account hides it from clones on the head although it is cached. |
| CacheContents.EntryNamesModified | ethcore/src/state_db.rs:278-284 | The entry of a block names exactly the addresses that its local cache marks. |
| CacheContents.AddKeepsTwelve | ethcore/src/state_db.rs:270-312 | The list of blocks grows to twelve and then loses its last entry for each new one. |
| StateDb.StateDB.BoxedClone | ethcore/src/state_db.rs:326-353 | A clone shares the cache, knows its parent, and has an empty local cache. |
| StateDb.StateDB.JournalUnder | ethcore/src/state_db.rs:201-211 | Records the block that the clone commits. |
| StateDb.StateDB.AddToAccountCache | ethcore/src/state_db.rs:416-422 | Queues one item in the local cache. |
| StateDb.StateDB.MarkBlocks | ethcore/src/state_db.rs:232-262 | The marking loop, with its early stop, computes the marking of the model. |
| StateDb.StateDB.FindEntry | ethcore/src/state_db.rs:234-234 | Finds the first entry of a block. |
| StateDb.StateDB.FindInsertion | ethcore/src/state_db.rs:305-311 | Finds the place of a new entry. |
| StateDb.StateDB.DrainLocalCache | ethcore/src/state_db.rs:277-295 | Collects the modified addresses, and for the best block overwrites or fills the shared accounts. |
| StateDb.StateDB.SyncCache | ethcore/src/state_db.rs:224-313 | The whole synchronisation in place equals the model's; the local cache is drained exactly when a block is committed. |
| StateDb.StateDB.CheckAllowed | ethcore/src/state_db.rs:382-406 | The walking loop computes the model's answer. |
| StateDb.StateDB.GetCached | ethcore/src/state_db.rs:430-438 | Answers with the cached account if the walk allows it, and never without a parent. |
| IndexPacking.RegroupedKeepsNumber | equihash/src/equihash.rs:239-275 | Regrouping a bit string without left-over bits keeps the number it writes. |
| IndexPacking.RegroupingRoundTrip | equihash/src/equihash.rs:239-377 | Regrouping back and forth without left-over bits is the identity. |
| IndexPacking.ElementByteIs | equihash/src/equihash.rs:262-270 | The masked byte of the accumulator is the byte of the masked element. |
| IndexPacking.FieldInAccumulator | equihash/src/equihash.rs:254-261 | The 32-bit accumulator still holds every bit of the next element. |
| IndexPacking.FillBuffer | equihash/src/equihash.rs:261-272 | Writes the masked bytes of one element into their places of the buffer and keeps the other bytes. |
| IndexPacking.ExpandArray | equihash/src/equihash.rs:239-275 | For widths 8 to 25, emits exactly the consecutive big-endian fields of the input, as many as fit. |
| IndexPacking.ReadElement | equihash/src/equihash.rs:358-367 | Shifts one element into the accumulator without disturbing the bits above it. |
| IndexPacking.CompressArray | equihash/src/equihash.rs:350-377 | Joins elements into exactly the requested number of bytes of their bit string. |
| IndexPacking.CopyFromU32 | equihash/src/equihash.rs:379-394 | Packs a list of indices into the bytes of its 25-bit fields. |
| IndexPacking.BufferHoldsValue | equihash/src/equihash.rs:231-236 | The buffer of an element writes its value. |
| IndexPacking.UnpackPack | equihash/src/equihash.rs:214-394 | Unpacking undoes packing on every list of 25-bit indices whose length is a multiple of 8. |
| IndexPacking.PackUnpack | equihash/src/equihash.rs:214-394 | Packing undoes unpacking on every byte string whose length is a multiple of 25. |
| IndexPacking.ThreeByteElements | equihash/src/equihash.rs:239-275 | At width 24, expansion cuts the string into its three-byte pieces. |
| Equihash.BigEndian4Order | equihash/src/equihash.rs:338-348 | The stored form of indices is ordered and distinguished like the indices. |
| Equihash.HasCollision | equihash/src/equihash.rs:328-336 | True exactly when the first bytes of two rows agree. |
| Equihash.IndicesBefore | equihash/src/equihash.rs:338-348 | True exactly when the index bytes of the left row are lexicographically smaller. |
| Equihash.DistinctIndices | equihash/src/equihash.rs:310-326 | True exactly when the first index of the left row occurs nowhere in the right row. |
| Equihash.MergeRows | equihash/src/equihash.rs:283-308 | Writes the XOR without the collision bytes and the indices in order, and nothing else. |
| Equihash.IndexChecks | equihash/src/equihash.rs:310-348 | On blocks that start with their strict minimum, order and distinctness come down to comparing first indices. |
| Equihash.PairChecks | equihash/src/equihash.rs:168-178 | Two rows pass the three checks of a round exactly when their blocks are a good pair. |
| Equihash.PairMerges | equihash/src/equihash.rs:283-308 | The merged row of a good pair is the row of the joined block. |
| Equihash.MergePair | equihash/src/equihash.rs:168-188 | Checks one pair and writes the merged row exactly when it is good. |
| Equihash.MergeRound | equihash/src/equihash.rs:156-202 | One round accepts exactly when all pairs are good and then leaves the rows of the joined blocks in the other buffer. |
| Equihash.WriteBitString | equihash/src/equihash.rs:133-146 | Writes the half hash of an index in expanded form. |
| Equihash.WriteLeaf | equihash/src/equihash.rs:127-151 | Writes the first row of an index. |
| Equihash.WriteLeaves | equihash/src/equihash.rs:122-151 | Fills the first buffer with the rows of all unpacked indices. |
| Equihash.FinalRow | equihash/src/equihash.rs:204-207 | After the last round the verdict is in the first bytes of the one row left. |
| Equihash.VerifyEquihashSolution | equihash/src/equihash.rs:103-208 | For every 400-byte solution: accepts if and only if the blocks of the unpacked indices survive all seven rounds. |
| EquihashLaws.JoinedLevel | equihash/src/equihash.rs:156-202 | A round turns the consecutive blocks of one size into those of twice the size, with their XOR. |
| EquihashLaws.AcceptsIff | equihash/src/equihash.rs:103-208 | Acceptance holds if and only if in each round every aligned pair agrees on its chunk with first indices in order, and the last chunk of the whole XOR is zero. |
| EquihashLaws.HalvesOfHash | equihash/src/equihash.rs:127-133 | The strings of an even index and of the next one, in this order, are one hash. |
| EquihashLaws.AcceptedXorIsZero | equihash/src/equihash.rs:103-208 | The XOR of all 128 bit strings of an accepted solution is zero. |
| EquihashLaws.AcceptedBlocksAreOrdered | equihash/src/equihash.rs:283-348 | Every aligned block of an accepted solution begins with its strict minimum. |
| EquihashLaws.RepeatingIsAccepted | equihash/src/equihash.rs:310-326 | For any two positions, a list of indices that counts up from 1000 at both is accepted under the all-zero hash. |
| EquihashLaws.RepeatingIsPacked | equihash/src/equihash.rs:379-394 | That list is the unpacking of a 400-byte solution. |
| EquihashLaws.KeptApartIff | equihash/src/equihash.rs:310-326 | Acceptance keeps two positions apart if and only if an aligned block that begins at the first contains the second. |
| EquihashLaws.SolutionsKeptApartIff | equihash/src/equihash.rs:103-208 | The same equivalence over all 400-byte solutions and all hash functions. |
| BlockBuilding.RefusedPush | ethcore/src/block.rs:235-250 | A push refused by hash or validation leaves the block alone; one refused later changes the state and its cache entries only, to the action's state on overflow and to the settled one on an internal error. |
| BlockBuilding.PublicPushRefusal | ethcore/src/block.rs:235-250 | For public input only an internal error of the machine can refuse a push and leave the block changed. |
| BlockBuilding.PushReadsEssence | ethcore/src/block.rs:235-250 | A push, and its error, do not depend on computed header fields or traces, nor, with dust cleaning off, on loaded balances. |
| BlockBuilding.ReopenKeepsEssence | ethcore/src/block.rs:377-385 | Reopening brings back everything but computed header fields, the reward trace and the entries that are not dirty; of those it keeps none. |
| BlockBuilding.LockReadsEssence | ethcore/src/block.rs:310-329 | Closing computes the same header and state whatever the computed fields, traces and loaded balances were. |
| BlockBuilding.RunEssence | ethcore/src/block.rs:298-385 | With dust cleaning off, or with nothing that a clone forgets, a run with closings and reopenings agrees with the run without them, up to computed fields and traces and, in the first case, loaded balances. |
| BlockBuilding.StepKeepsForgettable | ethcore/src/state/mod.rs:829-870 | A block that commits nothing between transactions, and whose transactions leave dirty entries only, holds dirty entries only at every step. |
| BlockBuilding.RunRemembers | ethcore/src/state/mod.rs:120-192 | While an account lives, in a run that creates no contract and forgets no entry, it is remembered with the balance it had at the start, however often it was written and committed since. |
| BlockBuilding.RunTraces | ethcore/src/engines/block_reward.rs:156-177 | The traces of the two runs differ by exactly one trace for each closing that pays rewards. |
| BlockBuilding.ReopeningIsInvisible | ethcore/src/block.rs:298-385 | With dust cleaning off, or with nothing that a clone forgets, the locked blocks of the two runs agree up to traces, and entirely if and only if tracing is off or no closing pays rewards. |
| BlockBuilding.ReceiptGas | ethcore/src/state/mod.rs:829-870 | A receipt's cumulative gas grows by at least half the base gas and stays within the limit. |
| BlockBuilding.RunKeepsGas | ethcore/src/block.rs:133-259 | Receipt gas stays strictly increasing and within the limit over every run. |
| BlockBuilding.GasBoundsTransactions | ethcore/src/block.rs:133-259 | The number of transactions is at most the gas limit divided by half the base gas, rounded up. |
| BlockBuilding.RunKeepsUnique | ethcore/src/block.rs:235-250 | When transactions come with their own hash, a block never holds two with one hash, and its set of hashes is that of its transactions. |
| BlockBuilding.RunKeepsCheckpoints | ethcore/src/state/mod.rs:894-896 | At every point of every run there is no open checkpoint, as committing asserts. |
| BlockBuilding.BloomCovers | ethcore/src/block.rs:321-324 | The header bloom has exactly the bits of the receipts' blooms. |
| BlockBuilding.AccrueBlooms | ethcore/src/block.rs:321-324 | The fold over receipts computes that bloom. |
| BlockBuilding.OpenBlock.Push | ethcore/src/block.rs:235-250 | Refuses a known hash, or executes and archives the transaction with its receipt and trace; the state and its cache entries are changed in place. |
| BlockBuilding.OpenBlock.PushAll | ethcore/src/block.rs:252-259 | Pushes until the first refusal. |
| BlockBuilding.OpenBlock.PushUncle | ethcore/src/block.rs:217-230 | Appends an uncle while there is room for one more. |
| BlockBuilding.OpenBlock.CloseAndLock | ethcore/src/block.rs:309-333 | Pays the rewards, finds no open checkpoint at the commit, and sets all computed header fields. |
| BlockBuilding.OpenBlock.Close | ethcore/src/block.rs:298-307 | Closes a block and keeps a clone of the state from before, with the dirty entries of its cache; locking the block then is what closing and locking in one step gives. |
| BlockLaws.RunsInItsBlock | ethcore/src/block.rs:133-144 | A transaction runs under the header of its block and after the gas of its receipts. |
| BlockLaws.ReceiptTells | ethcore/src/state/mod.rs:829-870 | The receipt of an accepted push has status 1 if the action ended well and 0 if not, from EIP-658 on, and the root of the pushed state where the block commits; its logs are those of the call tree if the action ended well and none otherwise; its gas is what was paid for on top of the gas before. |
| BlockLaws.PushedAllArchives | ethcore/src/block.rs:252-259 | Pushing a list archives all of it in order, or what is in front of the first refusal. |
| BlockLaws.EntriesTell | ethcore/src/state/mod.rs:120-192 | A removed account is remembered without a balance, a replaced entry as it was replaced, and a changed account as dirty. |
| BlockLaws.RewardsAreCredited | ethcore/src/engines/block_reward.rs:156-177 | Every account gets the sum of its rewards, and nothing else changes. |
| BlockLaws.LockedDescribesItself | ethcore/src/block.rs:309-333 | The header of a locked block describes its own transactions, uncles, receipts, state and gas; nothing else changes on closing but the rewarded state. |
| BlockLaws.RunKeepsUncles | ethcore/src/block.rs:217-230 | Over every run a block has no more uncles than its number allows, and loses none. |
| DustExamples.ActionEnds | ethcore/src/executive.rs:330-350 | What an action comes to whose machine ends at once. |
| DustExamples.SecondDecides | ethcore/src/state/mod.rs:945-962 | A touched account below the dust limit survives if and only if its balance is not below the one it was loaded with. |
| DustExamples.FirstPush | ethcore/src/state/mod.rs:829-870 | After a commit, and after a reverted creation, an account is remembered with a balance it no longer has, in an entry that is not dirty. |
| DustExamples.ReopenForgets | ethcore/src/block.rs:377-385 | Closing and reopening forgets that entry and keeps the rest of the block. |
| DustExamples.ReopeningSparesDust | ethcore/src/block.rs:298-385 | With dust cleaning on, two transactions whose locked block keeps an account if the block was closed and reopened between them and loses it otherwise, with different state roots; with commits between transactions and without. |
| DustExamples.InvisibleIff | ethcore/src/block.rs:298-385 | Closing and reopening is invisible in all runs of all fresh blocks if and only if dust cleaning is off, or nothing is committed between transactions and transactions leave dirty entries only. |
| Modexp.Reader.ReadExact | ethcore/src/builtin.rs:90-100 | Reads bytes of the zero-extended input and moves on. |
| Modexp.SkipZeros | ethcore/src/builtin.rs:323-324 | Drops exactly the leading zero digits. |
| Modexp.RaiseDigit | ethcore/src/builtin.rs:344-356 | Eight squarings and the masked multiplications append one digit to the exponent. |
| Modexp.Modexp | ethcore/src/builtin.rs:315-360 | Returns base to the big-endian exponent modulo the modulus, zero for moduli 0 and 1, through all early exits; counts its squarings. |
| Modexp.StripKeepsNumber | ethcore/src/builtin.rs:323-324 | Leading zero bytes do not change the exponent. |
| Modexp.ShortLengthAgrees | ethcore/src/builtin.rs:368-377 | Reading a length from its last eight bytes is exact below 2^64. |
| Modexp.ValueFits | ethcore/src/builtin.rs:400-408 | The result is below the modulus and fits its width whenever that is positive. |
| Modexp.Execute | ethcore/src/builtin.rs:362-412 | The output has the width of the modulus and writes the value that the input denotes; malformed and short inputs included. |
| Modexp.ComplexityFits | ethcore/src/builtin.rs:144-150 | The 64-bit complexity formula never wraps around for allowed lengths. |
| Modexp.ComplexityMonotone | ethcore/src/builtin.rs:144-150 | The complexity is monotone, also across 64 and 1024. |
| Modexp.GasMonotone | ethcore/src/builtin.rs:124-131 | The price is monotone in operand size and adjusted exponent length, saturation included. |
| Modexp.Cost | ethcore/src/builtin.rs:90-132 | Computes the price, with bytes behind the input counting as zero. |
| Modexp.DigitsArePriced | ethcore/src/builtin.rs:134-142 | The digits of the exponent take at most eight squarings more than the adjusted length. |
| Modexp.PriceCoversWork | ethcore/src/builtin.rs:90-151 | Unless saturated, the price bounds the squarings by the adjusted length plus eight, and covers a ninth of squarings times complexity. |
| ModexpLaws.ComplexityContinues | ethcore/src/builtin.rs:144-150 | At 64 and at 1024 bytes the complexity goes on from the value of the formula below. |
| ModexpLaws.PriceIsQuotient | ethcore/src/builtin.rs:126-131 | The price is the rounded quotient of complexity times exponent length and divisor, and saturates beyond 64 bits. |
| ModexpLaws.AdjustedIsHighestBit | ethcore/src/builtin.rs:135-142 | The priced exponent length is the position of the highest bit of the whole exponent, if its first 32 bytes are not all zero. |
| ModexpLaws.EncodedInputIsRead | ethcore/src/builtin.rs:362-412 | An input put together from lengths, base, exponent and modulus denotes the power modulo the modulus. |
| Boundary.BoundaryPositive | equihash/src/lib.rs:57-68 | No positive word is sent to zero. |
| Boundary.MeetsBoundaryIff | equihash/src/lib.rs:48-68 | A value is within the boundary of a difficulty if and only if its own difficulty is at least that one. |
| Boundary.BoundaryAntitone | equihash/src/lib.rs:48-68 | Larger difficulties have smaller boundaries. |
| Boundary.BoundaryGrows | equihash/src/lib.rs:48-68 | Converting twice never gives less. |
| Boundary.BoundaryThrice | equihash/src/lib.rs:48-68 | Converting three times is converting once. |
| Boundary.RoundTripIffInImage | equihash/src/lib.rs:87-99 | A value survives the round trip if and only if it comes out of the map. |
| Boundary.RoundTripIff | equihash/src/lib.rs:57-68 | The round trip is exact if and only if the remainder is below the quotient, or at the ends of the range. |
| Boundary.SmallRoundTrip | equihash/src/lib.rs:87-99 | The round trip is exact up to 2^128. |
| Boundary.UpperHalfRoundTrip | equihash/src/lib.rs:57-68 | Everything above 2^255 comes back as the largest word. |
| PodDiff.DiffPatches | ethcore/src/pod_account.rs:141-180 | Patching the old account gives the new one up to zero entries, if and only if the code is known on both sides or on neither. |
| PodDiff.NoDiffIff | ethcore/src/pod_account.rs:141-180 | There is no difference if and only if the accounts agree up to zero entries and code known on one side only. |
| PodDiff.SwapInverts | ethcore/src/pod_account.rs:141-180 | Swapping the arguments gives the inverse difference. |
| PodDiff.StateDiffPatches | ethcore/src/pod_state.rs:78-85 | Patching a state gives the other one, if and only if no code is known on one side only. |
| PodDiff.AbsentIffSame | ethcore/src/pod_state.rs:78-85 | An address is missing from the difference if and only if its accounts agree. |
| PodDiff.StateSwapInverts | ethcore/src/pod_state.rs:78-85 | The difference of swapped states is the inverse patch. |

## Left out

- Tracers and VM tracers of the executive: output only; block traces are kept as opaque values because reopening treats them differently.
- Instructions of the virtual machine other than its requests: any deterministic machine is covered.
- `Externalities::call` and `Externalities::create` with `trap` false as methods: they are the direct recursion `Executive.Direct`, a function on values.
- The thread switch of deep calls (`call_with_crossbeam`, `create_with_crossbeam`), which only forwards.
- Externalities.Serve: the EIP-210 branch of `blockhash`, which runs a contract, and `initial_storage_at`, which looks storage up at a checkpoint, are not among the requests.
- Trie and database errors, tries, RLP, keccak, Blake2b and the other builtins: functions of their inputs, or absent.
- Code cache, journal database and memory accounting of the state database; eviction from its LRU is an event that may remove any accounts.
- The private side of mixed transactions: only its effect on public balances is modelled.
- Transact.TransactionExecutor.Finalize: the balance with which an account was loaded, which decides on dust, is a parameter; `BlockBuilding` supplies it from the block. For accounts that the transaction creates, and for entries written without a change, it comes from `Engine.entries`, not from the executive: the call tree does not carry the cache.
- AccountCache.CacheIsSound: assumes that routes are true routes, that each block is committed once, that the local cache of a clone with a parent hash comes from committing its block (`AccountJournal.State.Drop`), and that a best commit without a parent hash is followed by the second synchronisation before the next commit, as the import lock makes it.
- AccountJournal.State.EnsureCached: takes the account bloom to be right about addresses without an account; that it also passes over empty accounts stored before EIP-161 is not followed beyond `AccountJournal.BloomShortcutIff`.
- BlockBuilding.OpenBlock.CloseAndLock: the engine's rewards are a parameter; system calls of reward contracts are not followed.
- Opening a block from a parent, sealing, receipt stripping and header population: they only set fields.
- Equihash.VerifyEquihashSolution: the input that is hashed is part of the hash function, and lengths other than 400 bytes are not accepted by its callers.
- Modexp.Execute: writes to an empty growing buffer, as the executive passes it; writing into a fixed buffer is not modelled.
- Solution search, mining, networking, RPC, accounts, transaction filters and JSON formats.
