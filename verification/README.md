# TrustNode verification

A Dafny model of the parts of TrustNode, a validator in the style of Solana, whose correctness does
not show from reading one function. Every law below is proved for all inputs, all runs or all reachable
states that meet the hypotheses its row names; concrete inputs show why the main hypotheses are needed.

* **Erasure coding** (`Gf256`, `GfTables`, `LinearAlgebra`, `MatrixInverse`, `Polynomials`,
  `ErasureCoder`, `DecodeLaws`). From polynomial arithmetic modulo 0x11d up to the end-to-end law: any k
  distinct shreds give back the exact bytes. The table-driven field, in-place Gauss-Jordan elimination and the
  encoder and decoder are methods proved against polynomials and their evaluation. The construction is
  in the family of section 8 of RFC 5510, evaluated at 0..k+m-1.
* **Transaction execution** (`Ledger`, `Programs`, `ProgramMethods`, `InstructionBytes`, `ProgramLaws`,
  `Transactions`, `Execution`, `ExecutionLaws`, `Executor`, `Admission`, `Interleaving`, `Termination`,
  `Conservation`, `Permissions`, `Scheduler`, `FirstFit`, `BatchOrder`, `SharedPayers`, `Caveats`). A
  transaction is a sequence of blocks, each a set of loads followed by stores. One sequential method runs it, and a world of threads runs it step by
  step under sorted read and write locks. Proved: serializability, mutual exclusion, deadlock freedom and
  termination, atomicity, conservation of lamports and of token supply, authorization of every debit, and
  the scheduler's batching laws.
* **Tower** (`Votes`, `TowerModel`, `TowerHistory`, `TreeHistory`, `QuorumSafety`, `HeaviestChain`, `Tower`,
  `TowerCaveats`). Vote processing as a state machine; every field of every state follows from which votes
  were accepted and where the root moved, no run confirms two blocks at one slot, and the best head is the
  tip of a heaviest chain.
* **Stores** (`BlockRecords`, `BlockLog`, `Blockstore`, `AccountLog`, `AccountsStore`, `StateRoots`,
  `Merkle`). Files are byte sequences. Both logs are proved against every cut; the accounts store
  agrees with a plain map; Merkle proofs are exact.
* **Mempool** (`MempoolModel`, `MempoolExact`, `MempoolTopK`, `Mempool`). Two mutually inverse indexes, exact
  accounting, and an online selection of the best-paying transactions.

SHA-256, the JSON codecs and transaction hashes are function-valued parameters. The codecs round-trip
where a contract says so. No hash is assumed injective: digests have 32 bytes, and laws about hashes
either exhibit a collision among the values at hand or ask that those values do not collide. An Ed25519
verdict is a boolean of the vote or transaction. Clocks are parameters. Public keys and Merkle hashes are
the numbers their bytes spell, so that numeric order is byte order. 64-bit saturation, wrap-around and
overflow checks are written out where the code depends on them.

## Where the code and its documentation differ

The model follows the code.

* Decoding promises `None` on any inconsistency, but slices out of range on short shreds
  (`DecodePanicsExactly`).
* Rollback restores only accounts flagged writable, while programs never look at that flag
  (`UnflaggedWriteSurvives`). `FailureExactly` says what every failed transaction leaves and
  `FailureAtomicIff` exactly when that is the state after the fee.
* A system transfer from an account to itself creates lamports (`SelfTransferCreatesLamports`,
  `LamportsConservedIff`).
* `InitializeMint` cannot succeed through the executor (`MintCreationAlwaysFails`).
* The fee payer is locked but is not part of the scheduler's conflict sets, so the order of a batch can
  decide who pays (`SharedPayerOrderMatters`). A batch has one outcome when payers are apart
  (`BatchIsDeterministic`); when payers are shared but only pay out, it has one exactly when their
  balances cover all that is taken from them (`OneOutcomeIff`, `SharedPayerOutcome`).
* A vote built on the root is never held back by a lockout, and near the largest slot the lockout
  vanishes because its end wraps around (`LockoutExact`).
* Checking a Merkle proof looks at neither its index nor its length, so interior nodes pass
  (`AcceptedExactly`, `InteriorNodePasses`).
* Blocks above the frame bound of replay are appended and acknowledged but lost on reopening
  (`FrameRecoveredIff`).
* Opening an accounts log does not cut off a torn record, so later writes can be lost
  (`TornTailHidesWrite`); `RemovalLostIff` says exactly when a removal is.
* The compute sum of a batch is added in 64 bits, so a finished batch can pass the check for a transaction
  it refused (`OverflowBreaksMaximality`); `ScheduleMaximal` says exactly when.

## Model

| member | source | states |
|---|---|---|
| `ErasureCoder.AnyKShredsSuffice` | crates/turbine/src/erasure.rs:256-324 | Any shreds taken from one encoding, in any order and with repetitions, decode to exactly the original bytes when at least k distinct indices are among them, and are refused otherwise; for every byte string and every k ≥ 1, m with k + m ≤ 256 |
| `ErasureCoder.Coder.Encode` | crates/turbine/src/erasure.rs:199-248 | Payloads have one length n, the least with n·k ≥ 8 + |data|; the first k joined are eight length bytes, the data and zeros; and all are the values at 0..k+m-1 of one polynomial per byte column |
| `ErasureCoder.EncodingLayout` | crates/turbine/src/erasure.rs:204-229 | Every encoding has that layout: the least payload length, the length bytes, the data and the zero padding in place |
| `ErasureCoder.Coder.Decode` | crates/turbine/src/erasure.rs:256-324 | For arbitrary shreds: refused with fewer than k distinct indices or unequal payload sizes, otherwise the unframing of a buffer that polynomials with k coefficients through the k survivors explain |
| `DecodeLaws.DecodeExactly` | crates/turbine/src/erasure.rs:256-324 | For arbitrary shreds, without the computation: the first shreds of the k lowest indices in range are read through the polynomials that run through them; refused with fewer, with sizes unequal or 0, or when no data fits the length bytes |
| `DecodeLaws.SurvivorsChosen` | crates/turbine/src/erasure.rs:262-281 | The survivors are the k lowest indices in range, each with the first shred that carries it |
| `DecodeLaws.UnframeExactly` | crates/turbine/src/erasure.rs:309-323 | A buffer gives back data if and only if it begins with the length of that data and the data; shorter than eight bytes it panics, otherwise it is refused |
| `Bytes.ToLeDigits` | crates/turbine/src/erasure.rs:207-207 | Length prefixes put the least significant byte first |
| `ErasureCoder.Coder.Solve` | crates/turbine/src/erasure.rs:286-307 | The recovered buffer and the survivors lie on one polynomial per byte column |
| `ErasureCoder.DecodePanicsExactly` | crates/turbine/src/erasure.rs:309-313 | Decoding slices out of range instead of returning None if and only if k equal-sized survivors hold fewer than 8 bytes together |
| `ErasureCoder.DecodeCanPanic` | crates/turbine/src/erasure.rs:309-313 | A concrete shred set on which decoding slices out of range |
| `ErasureCoder.Generator` | crates/turbine/src/erasure.rs:156-176 | The generator is the Vandermonde matrix times the inverse of its top block, its first k rows are the identity, and inversion never fails for k + m ≤ 256 |
| `ErasureCoder.GeneratorSystematic` | crates/turbine/src/erasure.rs:151-155 | The first k rows of the generator are the identity |
| `ErasureCoder.AnyRowsInjective` | crates/turbine/src/erasure.rs:151-155 | Every choice of k distinct generator rows is an invertible matrix |
| `ErasureCoder.GeneratorEncodes` | crates/turbine/src/erasure.rs:220-247 | Shreds made with the generator rows are values of polynomials, data shreds included |
| `ErasureCoder.Parity` | crates/turbine/src/erasure.rs:232-244 | Each parity byte is the generator row times the byte column of the buffer |
| `ErasureCoder.PolynomialUnique` | crates/turbine/src/erasure.rs:296-307 | Two polynomials with k coefficients agreeing at k distinct points are equal |
| `ErasureCoder.ExplainedBuffer` | crates/turbine/src/erasure.rs:278-307 | k distinct shreds of one encoding leave only the encoded buffer as explanation |
| `ErasureCoder.SurvivorsOf` | crates/turbine/src/erasure.rs:261-279 | The selected survivors are ascending and distinct, and there are k of them exactly when k distinct in-range indices arrived |
| `ErasureCoder.Deduplicate` | crates/turbine/src/erasure.rs:261-267 | The first shred of each in-range index wins |
| `ErasureCoder.UnframeFramed` | crates/turbine/src/erasure.rs:204-209 | Stripping the length prefix undoes framing |
| `ErasureCoder.Strip` | crates/turbine/src/erasure.rs:309-323 | The length prefix is honoured, refused when it exceeds the capacity |
| `MatrixInverse.Invert` | crates/turbine/src/erasure.rs:106-149 | Some(x) with x·m = m·x = I exactly when m sends no nonzero vector to zero; None otherwise |
| `MatrixInverse.ColumnStep` | crates/turbine/src/erasure.rs:121-142 | One elimination round keeps the reduction invariant and clears one more column |
| `MatrixInverse.SingularWitness` | crates/turbine/src/erasure.rs:123-123 | A column without a pivot exposes a nonzero vector that m sends to zero |
| `MatrixInverse.RightHalfInverse` | crates/turbine/src/erasure.rs:144-148 | A fully reduced augmented matrix holds a two-sided inverse in its right half |
| `MatrixInverse.FindPivot` | crates/turbine/src/erasure.rs:122-123 | The first row at or below the column with a nonzero entry, if any |
| `MatrixInverse.SwapAndNormalize` | crates/turbine/src/erasure.rs:124-130 | The pivot row is moved into place and scaled to a leading one |
| `MatrixInverse.Eliminate` | crates/turbine/src/erasure.rs:132-141 | The column is cleared from every row but the pivot row |
| `Polynomials.RootBound` | crates/turbine/src/erasure.rs:151-155 | A polynomial over GF(256) with at least as many distinct roots as coefficients is zero |
| `Polynomials.VandermondeInjective` | crates/turbine/src/erasure.rs:156-162 | Vandermonde rows at distinct points form an injective matrix |
| `GfTables.BuildTables` | crates/turbine/src/erasure.rs:57-75 | The filled tables are the powers of x and their logarithms |
| `GfTables.AlphaOrder` | crates/turbine/src/erasure.rs:61-70 | x has order exactly 255 modulo 0x11d, so the logarithm table is complete |
| `GfTables.AlphaOnto` | crates/turbine/src/erasure.rs:61-70 | Every nonzero byte is a power of x |
| `GfTables.Tables.Mul` | crates/turbine/src/erasure.rs:78-85 | Table lookup computes polynomial multiplication modulo 0x11d |
| `GfTables.Tables.Inv` | crates/turbine/src/erasure.rs:88-92 | Table lookup computes the multiplicative inverse of every nonzero byte |
| `GfTables.TablePow` | crates/turbine/src/erasure.rs:95-101 | Repeated table multiplication computes powers |
| `Gf256.MulComm` | crates/turbine/src/erasure.rs:46-47 | Field multiplication is commutative |
| `Gf256.MulAssoc` | crates/turbine/src/erasure.rs:46-47 | Field multiplication is associative |
| `Gf256.MulAddRight` | crates/turbine/src/erasure.rs:46-47 | Field multiplication distributes over exclusive or |
| `ProgramMethods.ProcessInstruction` | crates/program-executor/src/processor.rs:50-136 | Running any instruction succeeds exactly when the specification does and leaves exactly the specified accounts; what the bytes mean is the rows below |
| `InstructionBytes.TransferBytes` | crates/program-executor/src/instruction.rs:191-199 | System tag 2: from the bytes, exactly when a transfer succeeds, what it moves, and that nothing else changes, to itself included |
| `InstructionBytes.CreateBytes` | crates/program-executor/src/instruction.rs:201-217 | System tag 0: exactly when an account is created, its funds, owner, size and zero bytes, and what its payer loses |
| `InstructionBytes.AssignBytes` | crates/program-executor/src/instruction.rs:218-228 | System tag 1: exactly when an account is assigned; only its owner changes, to the key in the data |
| `InstructionBytes.NewTokenBytes` | crates/program-executor/src/instruction.rs:292-301 | Token tag 0: exactly when a token account is created, of the mint that both the data and the first account name |
| `InstructionBytes.NewMintBytes` | crates/program-executor/src/instruction.rs:302-302 | Token tag 1: exactly when a mint is created, with supply 0 and the signer as authority |
| `InstructionBytes.TokenTransferBytes` | crates/program-executor/src/instruction.rs:303-311 | Token tag 3: exactly when tokens move, by the amount in the data, and nothing else changes |
| `InstructionBytes.MintToBytes` | crates/program-executor/src/instruction.rs:312-320 | Token tag 7: exactly when supply and the named balance rise, by the amount in the data, and nothing else changes |
| `InstructionBytes.BurnBytes` | crates/program-executor/src/instruction.rs:321-329 | Token tag 8: exactly when supply and the named balance fall, by the amount in the data, and nothing else changes |
| `InstructionBytes.OtherBytesFail` | crates/program-executor/src/processor.rs:65-121 | Unknown programs and tags, short data and missing accounts all fail |
| `InstructionBytes.KeyOrder` | crates/tx-processor/src/executor.rs:164-167 | Keys order by their first differing byte |
| `ProgramMethods.ComputeBudget.Consume` | crates/program-executor/src/processor.rs:20-36 | Units stay charged even when the budget is exceeded |
| `ProgramMethods.ProcessTransfer` | crates/program-executor/src/programs/system_program.rs:78-138 | Both copies are read before either is written; refused without a signer, an account or the funds |
| `ProgramMethods.ProcessCreateAccount` | crates/program-executor/src/programs/system_program.rs:142-227 | The new account holds exactly what its funder pays |
| `ProgramMethods.ProcessAssign` | crates/program-executor/src/programs/system_program.rs:230-268 | Only the owner of the account changes |
| `ProgramMethods.LoadOwned` | crates/program-executor/src/programs/token_program.rs:71-79 | An account is loaded only if the token program owns it |
| `ProgramMethods.ProcessInitializeMint` | crates/program-executor/src/programs/token_program.rs:83-120 | A mint is created with supply 0, only where no account exists |
| `ProgramMethods.ProcessInitializeAccount` | crates/program-executor/src/programs/token_program.rs:127-180 | A token account starts empty and names an existing mint |
| `ProgramMethods.ProcessTokenTransfer` | crates/program-executor/src/programs/token_program.rs:183-282 | Balances of two accounts of one mint move by the same amount |
| `ProgramMethods.ProcessMintTo` | crates/program-executor/src/programs/token_program.rs:285-359 | Supply and one balance of the mint rise together, within 64 bits |
| `ProgramMethods.ProcessBurn` | crates/program-executor/src/programs/token_program.rs:362-448 | Supply and one balance of the mint fall together |
| `ProgramLaws.LamportsBalance` | crates/program-executor/src/programs/system_program.rs:95-128 | The exact lamport balance of every successful instruction: only a transfer to itself and the rent of a new mint create lamports |
| `ProgramLaws.LamportsConservedIff` | crates/program-executor/src/programs/system_program.rs:101-128 | An instruction conserves total lamports if and only if it is neither a self-transfer of a positive amount nor the creation of a mint |
| `ProgramLaws.InstructionKeepsSupply` | crates/program-executor/src/programs/token_program.rs:183-448 | Every instruction, successful or not, keeps every mint's supply equal to the sum of its balances and every token account on an existing mint |
| `ProgramLaws.SupplyOverRuns` | crates/program-executor/src/processor.rs:50-136 | The same over any sequence of system and token instructions |
| `Transactions.ResolvedIsDeclared` | crates/tx-processor/src/transaction.rs:110-138 | Every account an instruction can resolve is declared as read or as written |
| `Transactions.DeclaredExactly` | crates/tx-processor/src/transaction.rs:110-138 | A key is written, or read, exactly when a meta flagged writable, or not so flagged, resolves to it |
| `Transactions.LockListExact` | crates/tx-processor/src/executor.rs:155-180 | The lock list is strictly ascending, covers exactly the touched keys, and locks a key exclusively exactly when it is written or pays the fee |
| `Executor.LockAccounts` | crates/tx-processor/src/executor.rs:155-180 | Collecting, sorting and deduplicating yields that lock list |
| `Transactions.MutableExact` | crates/tx-processor/src/executor.rs:184-190 | The mutable accounts are exactly the exclusively locked ones |
| `Execution.ExecuteFrame` | crates/tx-processor/src/executor.rs:91-149 | With changed accounts flagged, a transaction's outcome depends only on the accounts it touches and changes only those it holds exclusively |
| `Execution.LoadsTouched` | crates/tx-processor/src/executor.rs:107-149 | Every load is of a locked account |
| `Execution.StepWritesWithin` | crates/tx-processor/src/executor.rs:107-149 | Every store is to an exclusively locked account, when changed accounts are flagged writable |
| `Executor.ExecuteTransaction` | crates/tx-processor/src/executor.rs:91-149 | The imperative execution equals the block-by-block machine, state and success flag, whose outcome the rows below fix |
| `Admission.OnlyAdmissibleAct` | crates/tx-processor/src/executor.rs:94-105 | Anything but a failure that changes nothing takes a verified signature, an instruction, a budget of 150 units and a payer with a fee of at least 5000 |
| `Admission.AdmissiblePays` | crates/tx-processor/src/executor.rs:121-140 | Every such transaction pays: failing, it leaves its mutable accounts as they were after the fee |
| `Admission.SucceedsExactly` | crates/tx-processor/src/executor.rs:91-149 | It succeeds with a result if and only if its instructions, with signer metas naming the signer, lead one after another from the state after the fee to the result and their units fit the budget |
| `Admission.RefusedIsSilent` | crates/tx-processor/src/executor.rs:94-105 | In every interleaving a transaction without a verified signature, an instruction, a budget and the least fee holds no lock, changes no account and reports failure |
| `Executor.RunInstructions` | crates/tx-processor/src/executor.rs:121-149 | The instruction loop with rollback equals the machine from that point on |
| `Executor.ExecuteInstruction` | crates/tx-processor/src/executor.rs:248-295 | Signer checks, resolution and compute charging decide as the machine does |
| `Executor.PayFee` | crates/tx-processor/src/executor.rs:220-245 | The fee is taken from an existing signer that can pay it, or nothing happens |
| `Executor.Snapshot` | crates/tx-processor/src/executor.rs:194-202 | The snapshot holds the value, or absence, of every mutable account |
| `Executor.RollbackTransaction` | crates/tx-processor/src/executor.rs:206-215 | Rollback stores what existed and removes what did not |
| `ExecutionLaws.RollbackRestoresIff` | crates/tx-processor/src/executor.rs:194-215 | Rollback restores the state at the snapshot if and only if no account outside the mutable ones differs in the state it is given |
| `ExecutionLaws.FailureExactly` | crates/tx-processor/src/executor.rs:121-149 | Every failed transaction that paid, flagged or not: a mutable account is back to its value after the fee, any other account is as the instructions up to the failing one left it |
| `ExecutionLaws.FailureAtomicIff` | crates/tx-processor/src/executor.rs:121-149 | So the failure is atomic if and only if those instructions changed no account that is neither flagged writable nor the fee payer's |
| `ExecutionLaws.FailureIsAtomic` | crates/tx-processor/src/executor.rs:121-140 | A transaction whose changed accounts are flagged, failing at any instruction, leaves every account as before, created ones absent again, except the fee taken from the signer |
| `ExecutionLaws.LamportsFallByTheFee` | crates/tx-processor/src/executor.rs:91-149 | A transaction that succeeds or whose changed accounts are flagged takes exactly the fee it was charged from the total and, on success only, adds its self-transfers |
| `ExecutionLaws.SuccessLamports` | crates/tx-processor/src/executor.rs:107-149 | The exact lamport total of every successful transaction: less the fee, plus self-transfers |
| `ExecutionLaws.MintCreationAlwaysFails` | crates/tx-processor/src/executor.rs:220-245 | InitializeMint can never succeed inside a transaction |
| `ExecutionLaws.TransactionKeepsSupply` | crates/tx-processor/src/executor.rs:91-149 | A transaction that succeeds or whose changed accounts are flagged keeps supply equal to the sum of balances |
| `Caveats.UnflaggedWriteSurvives` | crates/tx-processor/src/executor.rs:184-190 | Concrete transaction whose failed transfer to an unflagged account survives rollback |
| `Caveats.SelfTransferCreatesLamports` | crates/program-executor/src/programs/system_program.rs:101-128 | Concrete transaction from an account to itself that succeeds and raises total lamports by 1000 |
| `Caveats.SharedPayerOrderMatters` | crates/tx-processor/src/scheduler.rs:102-103 | Two transactions that share only their fee payer do not conflict, yet their order decides whether both succeed |
| `Caveats.SharedPayerOutcome` | crates/tx-processor/src/scheduler.rs:102-103 | Those two, from every balance of the payer with which each succeeds alone, have one outcome if and only if the payer holds both fees |
| `Interleaving.Serializable` | crates/tx-processor/src/executor.rs:300-313 | When changed accounts are flagged writable, every interleaving of loads, stores and lock steps of any number of transactions ends in the state of some serial order, with each success flag the serial one |
| `Interleaving.NoSharedWriteLock` | crates/tx-processor/src/executor.rs:111-119 | In every reachable world, whatever the transactions write, an exclusively held account is held by nobody else |
| `Interleaving.Progress` | crates/tx-processor/src/executor.rs:155-180 | From any world of threads holding prefixes of their lock lists, some unfinished transaction can move, even when a waiting writer blocks new readers |
| `Interleaving.NoDeadlock` | crates/tx-processor/src/executor.rs:155-180 | No reachable world with an unfinished transaction is deadlocked, whatever the transactions write |
| `Termination.RunsAreFinite` | crates/tx-processor/src/executor.rs:300-313 | No run of the threads of any transactions is longer than a bound fixed by the transactions |
| `Termination.RunsComplete` | crates/tx-processor/src/executor.rs:300-313 | From every reachable world of any transactions some continuation finishes every transaction |
| `Conservation.RunTakesTheFees` | crates/tx-processor/src/executor.rs:300-313 | With changed accounts flagged, however the threads of a batch interleave, total lamports change by exactly the fees charged and the self-transfers earned in the serial order the run amounts to |
| `Conservation.RunKeepsSupply` | crates/tx-processor/src/executor.rs:300-313 | With changed accounts flagged, however the threads interleave, every mint's supply stays the sum of its balances |
| `Permissions.InstructionAllowed` | crates/program-executor/src/processor.rs:50-136 | Every instruction removes no account, lowers lamports and changes owners only of its signer, lowers token balances only of accounts whose authority signs, and raises supply only when the mint's authority signs |
| `Permissions.TransactionAllowed` | crates/tx-processor/src/executor.rs:91-149 | The same for every transaction, successful or not, flagged or not |
| `Permissions.RunAllowed` | crates/tx-processor/src/executor.rs:300-313 | The same for every complete concurrent run of transactions whose changed accounts are flagged, against the set of all signers |
| `Permissions.TransferMoves` | crates/program-executor/src/programs/system_program.rs:95-128 | A transfer between two accounts moves exactly the amount, creates the recipient if absent, and changes nothing else |
| `Permissions.TokensMove` | crates/program-executor/src/programs/token_program.rs:183-282 | A token transfer moves exactly the amount between two balances of one mint and changes nothing else |
| `Interleaving.StepKeeps` | crates/tx-processor/src/executor.rs:107-149 | With changed accounts flagged, every step keeps the invariant that relates the world to a serial execution of the transactions that are done |
| `BatchOrder.AnyOrderSameResult` | crates/tx-processor/src/executor.rs:300-313 | Flagged transactions apart from each other give the same accounts and flags in every order |
| `BatchOrder.BatchIsDeterministic` | crates/tx-processor/src/scheduler.rs:95-149 | A scheduled batch with flagged writes and payers apart ends in one state with the same flags however its threads interleave |
| `SharedPayers.OneOutcomeIff` | crates/tx-processor/src/scheduler.rs:95-149 | A conflict-free flagged batch whose members each succeed alone and only take fees, transfers to others and account creations from their own signers ends alike in every order, with every member succeeding, if and only if every payer's balance covers all that its members take from it |
| `SharedPayers.ExecuteShift` | crates/tx-processor/src/executor.rs:107-149 | A transaction that only pays out of its signer's account succeeds and writes alike from any state that agrees on its other declared accounts and where the signer can pay, and takes exactly fee, transfers and creations from the signer |
| `SharedPayers.ExecuteSpends` | crates/tx-processor/src/executor.rs:107-149 | Such a transaction succeeds only where the signer could pay all of that |
| `BatchOrder.BatchApart` | crates/tx-processor/src/scheduler.rs:122-139 | Members of a scheduled batch whose payers are apart touch nothing another one writes |
| `Scheduler.Scheduler.Schedule` | crates/tx-processor/src/scheduler.rs:73-167 | For any queue, the loops terminate and append exactly the specified batches with their 64-bit compute sums, with the leftovers back in the queue |
| `Scheduler.Scheduler.FillBatch` | crates/tx-processor/src/scheduler.rs:80-151 | One pass fills a batch and keeps the rest in order |
| `Scheduler.Scheduler.TakesTransaction` | crates/tx-processor/src/scheduler.rs:96-139 | Placement is refused exactly for size, compute or a conflict with the batch so far |
| `Scheduler.Scheduler.NextBatch` | crates/tx-processor/src/scheduler.rs:170-175 | Batches are handed out in order |
| `Scheduler.SchedulePermutes` | crates/tx-processor/src/scheduler.rs:73-167 | New batches and leftovers are a permutation of the queue |
| `FirstFit.ScheduleIsFirstFit` | crates/tx-processor/src/scheduler.rs:73-167 | The batches, filled pass by pass, are those of going through the queue once and putting each transaction into the first batch that takes it; with batch size 0 nothing is placed |
| `FirstFit.TakesIffAccepts` | crates/tx-processor/src/scheduler.rs:96-139 | A batch takes a transaction if and only if there is room and it is empty, or the 64-bit compute sum fits and no account written by one is declared by the other |
| `Scheduler.ScheduleWellFormed` | crates/tx-processor/src/scheduler.rs:95-149 | Every batch is nonempty, pairwise conflict-free, within size, and its 64-bit compute sum is within the limit unless it is a singleton |
| `Scheduler.ScheduleWithinCompute` | crates/tx-processor/src/scheduler.rs:105-120 | The true compute sum of every batch is within the limit, unless the batch is a singleton or its own sum reaches 2^64 |
| `Scheduler.OverflowBreaksMaximality` | crates/tx-processor/src/scheduler.rs:110-120 | Concrete queue whose 64-bit sum wraps, so that the finished batch would take a transaction it refused |
| `Scheduler.ScheduleMaximal` | crates/tx-processor/src/scheduler.rs:95-149 | For every queue: a batch could have taken a transaction placed later or left over if and only if it has room and no conflict, its sum with that transaction reaches 2^64 and the wrapped sum is within the limit |
| `Scheduler.ScheduleIsFair` | crates/tx-processor/src/scheduler.rs:73-167 | With a nonzero batch size nothing is left over and the i-th queued transaction is in one of the first i + 1 batches |
| `QuorumSafety.NeverTwoConfirmed` | crates/consensus/src/tower.rs:276-291 | If accepted votes come from voters registered first and put each hash under one slot, no two blocks are ever confirmed at one slot, at the same or at different times of any run, saturating arithmetic included; forged and refused votes may say anything |
| `QuorumSafety.OneConfirmedPerState` | crates/consensus/src/tower.rs:276-291 | At any one time the same holds even when votes of unregistered voters are accepted |
| `QuorumSafety.QuorumsMeet` | crates/consensus/src/tower.rs:282-287 | Two saturating strict two-thirds majorities of one electorate share a voter |
| `QuorumSafety.StepKeeps` | crates/consensus/src/tower.rs:133-186 | Every vote, repeated registration and root advance keeps: one ballot per validator and slot, and node weight equal to the stake of its distinct voters; of votes only accepted ones need the slot of their hash |
| `QuorumSafety.RegistrationSetsUp` | crates/consensus/src/tower.rs:73-78 | Registering any validators records no block, keeps who was registered and adds everyone listed, as the safety theorem asks of its first state |
| `TowerCaveats.LateRegistrationForks` | crates/consensus/src/tower.rs:90-105 | Concrete run in which a late registration confirms a second block at one slot |
| `TowerCaveats.ReusedHashClosesCycle` | crates/consensus/src/tower.rs:163-179 | Concrete run in which a hash voted under two slots closes a cycle of parent links |
| `TowerModel.LockoutExact` | crates/consensus/src/tower.rs:126-152 | For every state and vote, exactly which votes pass: signed, later than the last, and extending it, built on the root, outside the lockout, or with a lockout ending past the largest slot, where the 64-bit addition wraps |
| `TowerHistory.LockoutAfterVote` | crates/consensus/src/tower.rs:126-161 | In every run an accepted vote that switches, or is built on the root, leaves a lockout of 2 slots; any other doubles the lockout, up to 2^31 |
| `TowerHistory.LockoutSince` | crates/consensus/src/vote.rs:174-196 | In every run the lockout is 2 to the number, up to 31, of the voter's accepted votes since the last switch, signed vote on the root or root that reached its last vote |
| `TowerHistory.VoterCounters` | crates/consensus/src/vote.rs:152-203 | In every run every counter of every voter is what its accepted votes and the roots make it, without overflow |
| `TowerHistory.HistoryExactly` | crates/consensus/src/vote.rs:152-203 | In every run a voter's history lists exactly its accepted votes that no later root has passed and fewer than 32 later ones follow, oldest first |
| `TowerHistory.TotalsExactly` | crates/consensus/src/tower.rs:154-206 | In every run the tower counts the accepted votes and the accepted switches, in 64 bits |
| `TreeHistory.ElectorateExactly` | crates/consensus/src/tower.rs:73-78 | In every run the validators are those registered or heard from with a signed vote, and stakes are those registered last |
| `TreeHistory.SlotsExactly` | crates/consensus/src/tower.rs:188-191 | In every run a slot stands for the block of the last vote accepted there, until a root passes it |
| `TreeHistory.NodesExactly` | crates/consensus/src/tower.rs:163-201 | In every run a block is in the tree exactly while no root has passed the slot of the vote that created it; its parent is the one that vote found, its voters and children are those that votes since then name |
| `TreeHistory.WeightsExactly` | crates/consensus/src/tower.rs:163-186 | In every run a block weighs what its voters had at stake, each when first voting for it, up to the largest 64-bit number |
| `TowerModel.SupermajorityExact` | crates/consensus/src/tower.rs:276-291 | Exactly when a weight confirms: more than two thirds of a total that is positive and whose double does not saturate |
| `HeaviestChain.RunDescends` | crates/consensus/src/tower.rs:163-201 | In every state of every run whose accepted votes fix the slot of their hash and have a lower parent slot, parent links lead strictly down in slot and child links to present nodes strictly up, across pruning and re-creation; refused votes may say anything |
| `HeaviestChain.LeavesAreTips` | crates/consensus/src/tower.rs:192-201 | While the root only advances and accepted votes are not below it, no present block names a leaf as its parent |
| `HeaviestChain.RunKeepsRooted` | crates/consensus/src/tower.rs:163-201 | In such runs a present parent lists each of its blocks as a child, and an absent parent is below the root |
| `HeaviestChain.LeafAbove` | crates/consensus/src/tower.rs:224-231 | A node at or above the root has a leaf above it |
| `HeaviestChain.AcceptedVoteHasHead` | crates/consensus/src/tower.rs:203-204 | After an accepted vote at or above the root the head is a present leaf with the greatest (chain weight, slot) |
| `HeaviestChain.HeadExactly` | crates/consensus/src/tower.rs:224-252 | That head is a present block at or above the root without children, and along parent links no other such block sums to more, or to as much at a higher slot |
| `HeaviestChain.ChainWeightIsSum` | crates/consensus/src/tower.rs:255-271 | The weight of a chain is the sum of the weights along its parent links, up to the largest 64-bit number |
| `Tower.Tower.ProcessVote` | crates/consensus/src/tower.rs:108-219 | Accepts exactly as specified, changes the state as specified (a refused vote, whatever it says, changes no node and not the head), and re-chooses a best head among the leaves at or above the root if there are any |
| `Tower.Tower.CheckVote` | crates/consensus/src/tower.rs:109-161 | The voter's own state is created and re-rooted even when the vote is then refused |
| `Tower.Tower.ChainWeight` | crates/consensus/src/tower.rs:256-271 | Terminates, and the memoised value is the plain chain sum capped at 64 bits |
| `Tower.Tower.UpdateBestHead` | crates/consensus/src/tower.rs:224-253 | The chosen leaf has the greatest (chain weight, slot); without leaves the head stays |
| `Tower.Tower.IsSlotConfirmed` | crates/consensus/src/tower.rs:276-291 | True exactly when some block at the slot has a strict supermajority |
| `Tower.Tower.ComputeTotalStake` | crates/consensus/src/tower.rs:90-105 | The capped sum of the stakes of all registered or voting validators, each counted once, in any iteration order |
| `Tower.Tower.AdvanceRoot` | crates/consensus/src/tower.rs:304-320 | Every validator is settled and exactly the nodes and slots below the root are pruned |
| `Tower.Tower.RegisterValidator` | crates/consensus/src/tower.rs:73-78 | The stake is set and an existing vote state is kept |
| `Votes.LockoutDoubles` | crates/consensus/src/vote.rs:170-176 | Over any sequence of votes without a switch the lockout is 2 to the number of consecutive votes, capped at 2^31 |
| `Votes.HistoryIsWindow` | crates/consensus/src/vote.rs:158-167 | After any sequence of votes the history is exactly the 32 most recent ones |
| `TowerModel.RunKeepsHistories` | crates/consensus/src/tower.rs:108-161 | In every state of every run every validator's history holds at most 32 votes in strictly ascending slot order, none after its last vote |
| `Votes.ProcessKeepsHistory` | crates/consensus/src/vote.rs:152-168 | The history stays within 32 entries, strictly ascending, up to the last vote |
| `Votes.UpdateKeepsHistory` | crates/consensus/src/vote.rs:199-204 | Forgetting votes below the root keeps that |
| `Votes.KeepFromIsSuffix` | crates/consensus/src/vote.rs:199-204 | Forgetting votes below the root cuts off exactly a prefix of the history |
| `BlockLog.CrashRecovery` | crates/blockstore/src/store.rs:94-159 | A log of fitting records cut at any byte replays to exactly the records whose frames are complete, with the length of those frames |
| `BlockLog.CompleteExact` | crates/blockstore/src/store.rs:94-159 | The count of complete frames is the number of frames ending within the cut |
| `BlockLog.ReplayIsChain` | crates/blockstore/src/store.rs:144-151 | Whatever the bytes, the replayed records are a hash chain from the given parent |
| `BlockLog.ReplayExactly` | crates/blockstore/src/store.rs:94-159 | Replay finds some records and length if and only if the bytes begin with exactly their frames (magic, length of 1 byte to 16 MiB, payload, its own digest), chained and verified, and no further such frame follows |
| `BlockLog.BadSumDropped` | crates/blockstore/src/store.rs:124-134 | After any valid log, a frame with any other digest than its payload's is dropped with all that follows |
| `BlockLog.BadMagicDropped` | crates/blockstore/src/store.rs:100-108 | After any valid log, bytes that do not begin with the magic are dropped |
| `BlockLog.ReplayIdempotent` | crates/blockstore/src/store.rs:76-87 | Replaying the kept prefix yields the same records and length |
| `BlockLog.ReplayContinues` | crates/blockstore/src/store.rs:94-159 | What follows the valid prefix is read as if it stood alone after the last kept record |
| `BlockLog.FrameRecoveredIff` | crates/blockstore/src/store.rs:115-117 | One more linked record is recovered if and only if its payload is nonempty and within 16 MiB; otherwise it and everything after it is lost |
| `BlockRecords.TipCommitsToHistory` | crates/blockstore/src/record.rs:104-128 | For any hash functions, two chains of one length with one final hash agree in every block, timestamps aside, or two of their blocks at one height exhibit a collision of SHA-256 or of transaction hashes |
| `BlockRecords.PreimageCommits` | crates/blockstore/src/record.rs:104-128 | For any hash functions, the hashed bytes determine every field but the hash itself and the timestamp, or two different transactions in the same place have one hash |
| `BlockRecords.PreimageLayout` | crates/blockstore/src/record.rs:104-128 | Where every field lies in the hashed bytes; nothing else, the timestamp included, is among them |
| `BlockRecords.ChainAppend` | crates/blockstore/src/store.rs:196-207 | Appending keeps a chain if and only if the record links to the tip and verifies |
| `Blockstore.Fill` | crates/blockstore/src/store.rs:36-53 | However many bytes each read returns, the buffer is filled, or the end is clean, or the read is torn |
| `Blockstore.ReadFrame` | crates/blockstore/src/store.rs:99-142 | Reading magic, length, payload and checksum in turn parses one frame |
| `Blockstore.ReplayFile` | crates/blockstore/src/store.rs:94-159 | The read loop computes the longest valid prefix and its records |
| `Blockstore.Blockstore.constructor` | crates/blockstore/src/store.rs:65-90 | Opening any bytes yields a chain that reopening reproduces |
| `Blockstore.Blockstore.AppendRecord` | crates/blockstore/src/store.rs:195-224 | Refused exactly when the record does not link or verify; a store that reopens faithfully still does if and only if the record fits |
| `Blockstore.Blockstore.Append` | crates/blockstore/src/store.rs:167-192 | Never refused; the record links to the tip, verifies, and holds exactly the given fields |
| `AccountLog.PrefixReplay` | crates/accounts/src/store.rs:133-177 | Any byte prefix of a log replays to the state after the operations whose records are complete |
| `AccountLog.CompleteExact` | crates/accounts/src/store.rs:133-177 | The count of complete records is the number of records ending within the cut |
| `AccountLog.ReopenAfterCrash` | crates/accounts/src/store.rs:104-130 | The same for a log continued over several sessions and cut after its clean beginning |
| `AccountLog.SnapshotReplays` | crates/accounts/src/store.rs:194-218 | A snapshot written in any order replays to the map it was taken from |
| `AccountLog.ReplayContinues` | crates/accounts/src/store.rs:133-177 | What follows a cleanly ending log is replayed on top of it |
| `AccountLog.ReplayPut` | crates/accounts/src/store.rs:133-165 | A stored-account record (tag 1, key, length, payload) is read whatever follows; a payload that does not decode is passed over |
| `AccountLog.ReplayDelete` | crates/accounts/src/store.rs:165-173 | A tombstone (tag 2, key) removes its key, whatever follows |
| `AccountLog.ReplayStops` | crates/accounts/src/store.rs:133-177 | Bytes that begin with neither end the replay; with the two rows above this fixes replay on all bytes |
| `AccountLog.WholeOp` | crates/accounts/src/store.rs:55-71 | Parsing an encoded record gives the operation back |
| `AccountLog.TornOp` | crates/accounts/src/store.rs:138-168 | A record cut short stops the replay |
| `AccountLog.RemovalLostIff` | crates/accounts/src/store.rs:104-177 | For every log and every account live in it: after appending its removal the account is still recovered if and only if the log did not end cleanly and its torn tail does not happen to spell the same key |
| `AccountLog.RemovalLostUnlessClean` | crates/accounts/src/store.rs:104-177 | For keys without the tombstone byte: lost if and only if the log did not end cleanly |
| `AccountLog.TornTailHidesWrite` | crates/accounts/src/store.rs:104-130 | A record written after a torn tombstone is not recovered, and a foreign key is deleted |
| `AccountsStore.AccountsDB.Save` | crates/accounts/src/store.rs:235-280 | The store's map gains the account; every other index entry keeps its location and its bytes; counts stay exact; one record is logged |
| `AccountsStore.AccountsDB.Load` | crates/accounts/src/store.rs:283-294 | Agrees with the plain map |
| `AccountsStore.AccountsDB.Exists` | crates/accounts/src/store.rs:297-299 | Agrees with the plain map |
| `AccountsStore.AccountsDB.Remove` | crates/accounts/src/store.rs:306-318 | The map loses the key, the buffer is untouched, a tombstone is logged only if something was removed |
| `AccountsStore.AccountsDB.ReplayLog` | crates/accounts/src/store.rs:133-177 | The cursor loop computes the replay of the bytes over the current map |
| `AccountsStore.AccountsDB.Open` | crates/accounts/src/store.rs:104-130 | Opening a log found on disk gives the map it replays to |
| `AccountsStore.AccountsDB.Snapshot` | crates/accounts/src/store.rs:194-218 | The map is unchanged and the new log, with encodings below 4 GiB, replays to it |
| `AccountsStore.AccountsDB.ComputeStateRoot` | crates/accounts/src/store.rs:331-345 | The root is a function of the map alone |
| `StateRoots.RootFromAnyOrder` | crates/accounts/src/store.rs:331-345 | Sorting makes the root independent of iteration order and write history |
| `StateRoots.StateRootExactly` | crates/accounts/src/store.rs:331-346 | The state root is the Merkle root of the account hashes in ascending order |
| `StateRoots.RootDeterminesHashes` | crates/accounts/src/store.rs:331-345 | Stores of equally many accounts with equal roots hold the same collection of account hashes, unless two pairs hashed in their trees collide |
| `Merkle.PathReachesTop` | crates/accounts/src/merkle.rs:54-108 | The proof for any leaf of any list, odd promotions included, leads to the root |
| `Merkle.TopByHalves` | crates/accounts/src/merkle.rs:15-51 | The level-by-level root is the hash of the roots of two parts, cut at the largest power of two below the length: the tree of section 2.1 of RFC 6962 without its prefixes |
| `Merkle.PathByHalves` | crates/accounts/src/merkle.rs:54-110 | A proof is that tree's audit path: the proof in its part, then the root of the other |
| `Merkle.TopInjective` | crates/accounts/src/merkle.rs:15-51 | Lists of one length with one root are equal, unless two pairs hashed in their trees collide |
| `Merkle.ForgedProofRejected` | crates/accounts/src/merkle.rs:140-159 | A proof shaped like the one for an index is accepted if and only if it carries that leaf and its siblings, unless a pair of one collides with a pair of the other |
| `Merkle.AcceptedExactly` | crates/accounts/src/merkle.rs:140-159 | A proof of any shape is accepted if and only if it ends in the honest path of some node of the tree, starting at that node or below a leaf, unless one of its pairs collides with one of the tree |
| `Merkle.InteriorNodePasses` | crates/accounts/src/merkle.rs:140-159 | Concrete proof of an interior node that is accepted, and two lists of different length with one root |
| `Merkle.SidesFromShape` | crates/accounts/src/merkle.rs:81-93 | The sides of a proof depend only on the length of the list and the index |
| `Merkle.Compute` | crates/accounts/src/merkle.rs:15-51 | The level loop computes the root |
| `Merkle.Prove` | crates/accounts/src/merkle.rs:54-108 | The loop collects the path of the leaf, which leads to the root; out of range it returns an empty proof |
| `Merkle.Verify` | crates/accounts/src/merkle.rs:140-159 | Accepts exactly when climbing the siblings gives the root |
| `MempoolTopK.OnlineTopK` | crates/mempool/src/lib.rs:149-205 | After any run in which nothing expired and nothing was taken out the pool holds the max_size best-paying of the distinct eligible transactions offered, or all of them |
| `MempoolTopK.BestIsTopFees` | crates/mempool/src/lib.rs:168-188 | At every fee threshold, as many transactions are kept as were offered, up to max_size |
| `MempoolTopK.InsertKeepsBest` | crates/mempool/src/lib.rs:149-205 | One more offer that expires nothing, new, repeated or previously evicted, keeps that |
| `MempoolTopK.WindowExpiresNothing` | crates/mempool/src/lib.rs:251-266 | For instance, any run of inserts within one age window expires nothing |
| `MempoolModel.RunOk` | crates/mempool/src/lib.rs:149-266 | In every run the two indexes are inverse, the size is within bounds, and accepted = parked + evicted + expired + taken out |
| `MempoolModel.TopExact` | crates/mempool/src/lib.rs:209-231 | Draining lists distinct parked entries, dearest first and equal fees by arrival, all before those left behind, as many as asked for or as there are |
| `MempoolExact.DrainExactly` | crates/mempool/src/lib.rs:209-232 | Draining takes as many as asked for or as there are, by falling fee and then by arrival, all ahead of those that stay |
| `MempoolExact.ExpireExactly` | crates/mempool/src/lib.rs:251-266 | Expiry keeps exactly the entries received at most the greatest age ago and counts the others |
| `MempoolExact.InsertRefuses` | crates/mempool/src/lib.rs:150-166 | A bad signature, too low a fee or a known hash is refused for the first of these reasons and changes nothing but the count |
| `MempoolExact.InsertParks` | crates/mempool/src/lib.rs:169-205 | Any other transaction first expires stale entries and is parked after all others if there is room |
| `MempoolExact.InsertEvicts` | crates/mempool/src/lib.rs:171-184 | Without room it takes the place of the entry that pays least and, among those, came first, if that pays less |
| `MempoolExact.VictimExists` | crates/mempool/src/lib.rs:172-177 | Every pool that is not empty has such an entry |
| `MempoolExact.InsertFull` | crates/mempool/src/lib.rs:171-188 | If every entry pays as much, it is refused |
| `MempoolExact.RemoveExactly` | crates/mempool/src/lib.rs:234-238 | Removal takes out the entry with the hash and nothing else |
| `Mempool.Mempool.Insert` | crates/mempool/src/lib.rs:149-205 | Refuses and admits as specified: signature, fee, duplicate, expiry, then eviction of the cheapest and oldest for a strictly dearer transaction |
| `Mempool.Mempool.Drain` | crates/mempool/src/lib.rs:209-231 | Returns and removes exactly the first entries in draining order |
| `Mempool.Mempool.Remove` | crates/mempool/src/lib.rs:234-238 | Returns and removes the entry with the hash, if parked |
| `Mempool.Mempool.Expire` | crates/mempool/src/lib.rs:246-249 | Drops and counts exactly the entries past their age |
| `Mempool.Mempool.RemoveSeq` | crates/mempool/src/lib.rs:111-115 | Both indexes lose the entry and stay inverse |
| `Mempool.FindFirst` | crates/mempool/src/lib.rs:172-176 | One pass finds the first entry in fee order, equal fees by arrival |

## Left out

- ErasureCoder.Coder.constructor: requires k ≥ 1 and k + m ≤ 256, which the code only asserts in debug builds; other configurations are not modelled.
- Network, RPC, command line, gossip, proof of history, the shred buffer and tokio tasks: plumbing over libraries.
- `crates/consensus/src/leader.rs`: slot shares depend on rounding of 64-bit floats.
- `crates/turbine/src/neighborhoods.rs`: the tree it builds mixes validator and node positions, so the intended tree laws do not hold for deep trees.
- `crates/consensus/src/fork_choice.rs`: easier than the tower it sits beside.
- SHA-256, Ed25519 and JSON themselves: parameters, as stated above.
- I/O errors, logging, statistics getters, error texts and timestamps.
- Which error a failed instruction or transaction reports: contracts say that it fails and what it leaves; the mempool's errors are specified. The code also reads a program account without a lock, which can change the kind of error and the units charged but not the accounts.
- Sequence, version, compute-unit and statistics counters of the programs, the accounts store and the mempool are unbounded here; the code adds them in 64 bits.
- Accounts whose encoding reaches 4 GiB: the replay laws of the accounts log exclude them, since the length field has 32 bits.
- Order between conflicting transactions: the scheduler does not keep it, so nothing is claimed.
- Vote states are values held in a map, as the code owns them; in-place update through a map entry is modelled as replacing the value.
- Iteration over hash maps is modelled as iteration in an arbitrary order.
- The order in which a lock serves its waiters: any order is allowed.
- Stores after a torn accounts log: which bytes they are misread as depends on the torn record, so beyond the example recovery is claimed for logs that end cleanly; removals are decided (`RemovalLostIff`).
- Executor.LockAccounts: sorting is the specification's insertion sort, standing for the library's stable sort.
- Tower.Tower.ProcessVote: requires of a vote that is accepted that its hash fixes its slot and its parent slot is lower; without that the code's recursion need not end (`ReusedHashClosesCycle`).
