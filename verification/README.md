# Tenzro: proofs about what other chains and the token layer trust

This project models the parts of Tenzro that other parties rely on without
seeing the rest of it, and proves what they may rely on.

- **State proofs.** The committed state is a trie: 248 bits of stem, then 256
  value slots under each stem. `StateProof` is the checker that contracts on
  other chains run; `StateTrie` is the trie itself, its updates and its prover;
  `TrieRebuild` is the independent recomputation of the root from a sorted list
  of stems. Soundness and completeness of the checker are proved against a plain
  map of the state.
- **The finality client.** `Finality` hands over from one epoch's committee to the
  next.
  `SolanaState` and `SolanaClient` are the same client in one byte array with
  room for 32 epochs; `CosmosClient` is the 08-wasm light client around it, with
  `Protobuf` for the wrapping 08-wasm reads. `FieldBytes` is the verifier's byte
  arithmetic.
- **Settlement.** `Settlement` is the two-way lock: legs that settle by a proven
  decision, escape after a deadline, and publish a reconciliation hash.
- **Agent accounts.** `Agent` holds the grant, action and report encodings,
  `Merkle` and `Signing` the key and target proofs, and `AgentLedger` the one
  ledger that both `CosmosAccount` and `SorobanAccount` refine, call by call and
  over whole runs, through the fields they share (`AccountData`).
- **The Stellar bridge.** `Quorum`, `BridgeMessages`, `Asset`, `Bridge` and
  `BridgeRuns`: counting signers, the signed messages, mint and burn, rotation,
  expiry, and conservation over every run.
- **The token layer.** `Text` and `Authority` are the grants and capabilities of
  a token, both as requests are adjudicated and as two tokens are compared;
  `Exchange` is token exchange (RFC 8693) and its chains. `Revocation`,
  `RevocationEngine`, `RevocationRuns` and `RevocationEffects` are cascading
  revocation, its rebuilding from the audit log, and what each revocation does. `Refresh` is refresh-token rotation, `Replay`
  the replay control of DPoP proofs (section 11.1 of RFC 9449).
- `Encoding`, `Layout` and `Sequences` are the shared vocabulary: bytes, words, fixed-width
  integers, records of fixed-width fields, and sequences without repetitions.

## How to read it

A hash function is an arbitrary function `h` from bytes to 32-byte words, passed
as a parameter. Nothing is assumed about it. Where a result needs it to be
collision free, the result reads "the claim holds, or two of the strings `xs`
collide, or one of them hashes to the zero word", and the hypotheses say only
that `xs` contains what the runs in question hash. Signatures, Groth16 seals and
key recovery are parameters in the same way. Time is an argument; calls are
atomic. A call that aborts (an error, a panic, a checked overflow) leaves the
state as it was. The Solana program is the exception: it is built without
overflow checks, so its epoch arithmetic wraps, and the model wraps with it.

An object the contracts update is a class; its methods are proved against a
value-level specification (`Held()`, `Now()` or `View()` is the abstract value),
and the theorems about runs are about that specification.

## Where code and comments differ

The model follows the code in each case.

- A restart after a revocation is described as writing no audit rows. It writes
  one for every token that was issued under a revoked controller after the
  revocation (`RestartWritesNothingIff`, `RestartMayWrite`).
- A child token is described as expiring no later than its parent. The clock is
  read twice: whatever the lag up to some bound, the child does not outlast its
  parent exactly when its lifetime plus that bound fits what the parent has left
  (`OutlivedIff`). Equal reads always do (`EqualReadsOutlived`); one second between
  them may not (`MayOutlast`).
- The delegation depth saturates at 2^32 - 1. With that maximum depth the bound
  stops binding (`AtTheCeilingDepthSticks`); below it, it always holds
  (`DepthBounds`).
- A replayed proof is described as always caught within its window. Freshness is
  checked by one clock read and the id guarded by a later one, so one proof passes
  twice exactly when it is fresh at both first reads and the second reads are 120
  seconds apart (`OneProofTwiceIff`, `TwiceByLag`): with equal reads, at the two
  ends of its window and nowhere else (`TwiceAtTheEnds`); with reads apart, also
  elsewhere (`TwiceInsideTheWindow`). At the end of 64-bit time the expiry saturates
  and the gap is shorter (`SaturatedExpiry`).
- Counterparties in capability constraints are described as compared in
  hexadecimal; the code compares the address's display form. The model takes that
  form as a parameter.
- Token exchange is described as requiring a strict subset over eight kinds of
  grant. There are nine, and it accepts equal authority: all the grants
  (`RarSubsetOfItself`), and with no capabilities named all that the parent may do
  (`PassedOnWhole`). A capability list named as it is passes exactly when, for each
  action, the first capability covers the others (`CapsSubsetOfItselfIff`): for a
  list naming each action once, when its amounts are numbers (`CapsNamedOnceIff`);
  one that repeats an action may be refused although they are
  (`RepeatedActionRefused`).
- Target leaves cast lengths to 16 bits. They tell targets apart exactly up to
  65535 bytes (`TargetsApartIff`). An action's target and function both fit, and such
  a pair shares its leaf with no other of whatever length (`TargetContentPinned`), so
  it is one of those committed to, however long these are (`TargetCommitted`).
- On Solana the table is a window of epochs exactly as long as no accepted
  checkpoint handed over past epoch 2^64 - 1, over every run (`RunWindowIff`).
- A restart may also refuse more than the node did before it. It leaves who is
  refused as it was exactly when no token was issued late under a revoked controller
  (`RestartChangesNothingIff`, at every point of every run
  `RunRestartChangesNothingIff`).
- A consensus state is stored by height, and a checkpoint of another index with the
  same state height replaces it; answers at a height agree unless that happened with
  another root (`EntriesAgreeOverRun`).
- Byte-wise negation modulo the field order is a negation exactly for
  coordinates no larger than the modulus (`NegatesIff`).

## Model

| member | source | states |
|---|---|---|
| StateProof.DecodeEncode | crates/tenzro-storage/src/state_trie/proof.rs:69-95 | every proof is read back from its binary form |
| StateProof.EncodeDecode | contracts/finality-verifier/src/state_proof.rs:8-11 | accepted bytes are the only encoding of the proof they carry |
| StateProof.FoldSlots | contracts/finality-verifier/src/state_proof.rs:100-107 | the slot loop computes the ancestor hash of the leaf under its eight siblings |
| StateProof.FoldPath | contracts/finality-verifier/src/state_proof.rs:115-119 | the path loop computes the hash of the key's path from the terminal up to the root |
| StateProof.VerifyAt | contracts/finality-verifier/src/state_proof.rs:75-120 | the checker accepts exactly the byte strings that decode to an accepted proof of that value or absence |
| StateProof.OneAnswer | contracts/finality-verifier/src/state_proof.rs:58-120 | one root never proves two values, or a value and absence, for one key, or the hash is broken |
| StateProof.OtherStemShares | contracts/finality-verifier/src/state_proof.rs:93-99 | an accepted proof that ends at another stem proves absence, by a stem sharing the key's bits as far as the path goes |
| StateProof.ValueNeedsOwnStem | contracts/finality-verifier/src/state_proof.rs:86-114 | a value is proven only where the path ends at the key's own stem |
| StateTrie.PutCanonical | crates/tenzro-storage/src/state_trie/mod.rs:527-685 | updates keep the trie canonical: every stem on its own path, no stem without values, no node over fewer than two stems |
| StateTrie.PutLookup | crates/tenzro-storage/src/state_trie/mod.rs:504-685 | after an update the trie holds the changes, and what it held everywhere else |
| StateTrie.OneTrie | crates/tenzro-storage/src/state_trie/mod.rs:527-685 | two canonical tries with the same answers are the same trie |
| StateTrie.CommitHolds | crates/tenzro-storage/src/state_trie/mod.rs:449-502 | over every history of commits the trie answers as the plain map does |
| StateTrie.HistoryIndependent | crates/tenzro-storage/src/state_trie/mod.rs:449-502 | histories that leave the same state leave the same trie, so the same root |
| StateTrie.SiblingsFold | crates/tenzro-storage/src/state_trie/hashing.rs:114-155 | the siblings of a slot fold back to the slots root |
| StateTrie.ServedProofAccepted | crates/tenzro-storage/src/state_trie/mod.rs:719-792 | completeness: the served proof of the state's answer is accepted, for every key, or a hashed string hits the zero word |
| StateTrie.ServedRunIn | crates/tenzro-storage/src/state_trie/mod.rs:719-792 | checking the served proof hashes nothing that computing the root did not |
| StateTrie.AcceptedIsHeld | contracts/finality-verifier/src/state_proof.rs:75-120 | soundness: whatever is accepted under a trie's root is the trie's answer, or the strings hashed for the root and the check break the hash |
| StateTrie.AcceptedIsCommitted | contracts/finality-verifier/src/state_proof.rs:75-120 | both, end to end, for every history of commits and the plain map it leaves |
| TrieRebuild.RebuildAgrees | crates/tenzro-storage/src/state_trie/hashing.rs:189-215 | rebuilding from the sorted stems gives the incremental trie's own root |
| TrieRebuild.StemListAscending | crates/tenzro-storage/src/state_trie/hashing.rs:199-201 | the stems are in strictly ascending order, as the rebuild demands |
| TrieRebuild.OneOrder | crates/tenzro-storage/src/state_trie/mod.rs:936-948 | a list of stems in strictly ascending order is determined by its members |
| TrieRebuild.CommitListed | crates/tenzro-storage/src/state_trie/mod.rs:936-948 | the trie lists exactly the stems the state populates, each with the root of the state's slots |
| TrieRebuild.CommitRebuilds | crates/tenzro-storage/src/state_trie/mod.rs:929-949 | after every history, the root built from any ascending list of exactly the stems the state populates, each with its slots root, is the kept root |
| Settlement.SlotKeysDistinct | contracts/finality-verifier/src/settlement.rs:65-67 | distinct plans decide at distinct keys, or the hash collides |
| Settlement.DecisionRoundTrip | contracts/finality-verifier/src/settlement.rs:70-80 | a decision is read back for its plan and for no other |
| Settlement.LegsAgree | contracts/finality-verifier/src/settlement.rs:193-201 | two legs of one plan settled under one root never go opposite ways, or the hash is broken |
| Settlement.SettlesAsDecided | contracts/finality-verifier/src/settlement.rs:83-86 | under a committed state's root a leg settles only as that state's decision says |
| Settlement.LegMovesOnce | contracts/finality-verifier/src/settlement.rs:193-212 | in every run of settle and escape attempts exactly one can be granted, and the leg stays where it went |
| Settlement.GrantedIff | contracts/finality-verifier/src/settlement.rs:193-212 | a settle is granted exactly to a locked leg with a proven decision, an escape exactly to one whose time has come; a commit releases, anything else refunds |
| Settlement.LegEndsAs | contracts/finality-verifier/src/settlement.rs:193-212 | over every run a leg is released exactly if a proven commit was granted, refunded exactly if a proven abort or a timely escape was |
| Settlement.ReconAgrees | contracts/finality-verifier/src/settlement.rs:42-52 | equal running hashes of equally many entries recorded the same entries in the same order |
| Settlement.CheckpointAgrees | contracts/finality-verifier/src/settlement.rs:56-61 | two locks publishing one checkpoint recorded the same entries in the same order, or the hash collides |
| Agent.GrantDecodeEncode | contracts/finality-verifier/src/agent.rs:57-87 | every grant is read back from its 322 bytes |
| Agent.GrantEncodeDecode | contracts/finality-verifier/src/agent.rs:57-87 | the only bytes that decode to a grant are its encoding |
| Agent.ReadGrant | contracts/finality-verifier/src/agent.rs:49-87 | the cursor-driven decoder computes that decoding, for all byte strings |
| Agent.ActionDecodeEncode | contracts/cosmos-agent-account/src/lib.rs:299-315 | every action is read back from its encoding |
| Agent.ActionEncodeDecode | contracts/cosmos-agent-account/src/lib.rs:299-315 | the only bytes that decode to an action are its encoding |
| Agent.ReadAction | contracts/stellar-agent-account/src/lib.rs:198-214 | the cursor loop computes that decoding and leaves nothing over |
| Agent.ActBytesInjective | contracts/finality-verifier/src/agent.rs:119-121 | what is signed names one chain, account, grant number, nonce and action |
| Agent.ReportsDistinct | contracts/finality-verifier/src/agent.rs:137-149 | two payments with one report are one payment |
| Agent.ReportLayout | contracts/finality-verifier/src/agent.rs:137-149 | where the 233-byte report has kind, chain, account, agent, number, nonce, what was bought and the amount |
| Merkle.MerkleVerify | contracts/finality-verifier/src/agent.rs:108-115 | the loop accepts exactly when the sorted-pair fold reaches the root |
| Merkle.LeIsOrder | contracts/finality-verifier/src/agent.rs:111-111 | comparing bytes compares the numbers they write |
| Merkle.AcceptedIsLeaf | contracts/finality-verifier/src/agent.rs:108-115 | an accepted proof is of a leaf of the tree, for every tree, or the hash collides |
| Merkle.LeafIsAccepted | contracts/finality-verifier/src/agent.rs:108-115 | every leaf has an accepted proof |
| Merkle.AcceptedKey | contracts/finality-verifier/src/agent.rs:96-98 | an accepted key proof is of exactly that key and operator |
| Merkle.TargetContentInjective | contracts/finality-verifier/src/agent.rs:102-104 | targets whose lengths fit 16 bits have distinct leaf contents |
| Merkle.LongTargetsShareLeaf | contracts/finality-verifier/src/agent.rs:102-104 | a target of 65536 bytes shares its leaf with another |
| Merkle.TargetsApartIff | contracts/finality-verifier/src/agent.rs:102-104 | leaves tell targets of at most n bytes apart exactly when n is below 65536 |
| Merkle.TargetContentPinned | contracts/finality-verifier/src/agent.rs:102-104 | a target and function whose lengths fit 16 bits share their leaf content with no other pair of any length |
| Merkle.LeafIsCommitted | contracts/finality-verifier/src/agent.rs:102-104 | a target and function that fit, and whose leaf is in a tree over targets of any length, are one of those |
| Signing.CheckSigner | contracts/cosmos-agent-account/src/lib.rs:373-388 | a signer passes exactly with a low-S signature that verifies, by a key proven under the key root |
| Signing.CheckSigners | contracts/cosmos-agent-account/src/lib.rs:368-392 | the signer loop accepts exactly one such signer, or two of different operators above the threshold |
| Signing.SignedByOne | contracts/cosmos-agent-account/src/lib.rs:368-392 | every action, of whatever amount, carries a low-S signature by a key the grant committed to, or the hash collides |
| Signing.CosignedByTwo | contracts/cosmos-agent-account/src/lib.rs:368-392 | one above the threshold carries two, by committed keys of different operators, or the hash collides |
| Signing.OneIsEnough | contracts/cosmos-agent-account/src/lib.rs:369-372 | up to the threshold one committed key's signature is enough |
| Signing.TwoAreEnough | contracts/cosmos-agent-account/src/lib.rs:369-392 | two of different operators always are |
| Signing.TargetCommitted | contracts/stellar-agent-account/src/lib.rs:448-460 | the target and function of an action that passes are one pair the grant committed to, whatever lengths it committed to, or the hash collides |
| AgentLedger.PlayKept | contracts/cosmos-agent-account/src/lib.rs:243-417 | in every run: the nonce counts the actions, spent is what moved under the installed number, every grant ever installed bounds what ran under it |
| AgentLedger.GenuineIsCommitted | contracts/stellar-agent-account/src/lib.rs:249-258 | a grant taken names this chain, agent and account, and is what the committed state holds for it, or the hash is broken |
| AgentLedger.CommittedIsGenuine | contracts/stellar-agent-account/src/lib.rs:249-258 | the state's own grant is taken with the proof served for it |
| AgentLedger.ActionCounts | contracts/cosmos-agent-account/src/lib.rs:317-404 | an allowed action's own amount and refund are what the grant bounds, and its amount is what is counted |
| AgentLedger.EveryActionInTerms | contracts/cosmos-agent-account/src/lib.rs:325-361 | in every run each action ran in its grant's time window, within its per-action and refund limits, under a grant installed before |
| AgentLedger.OpenGrantActs | contracts/cosmos-agent-account/src/lib.rs:352-404 | a live open grant lets move whatever fits its terms |
| AgentLedger.VoidStops | contracts/cosmos-agent-account/src/lib.rs:259-285 | a live grant can always be voided, and then nothing runs |
| AgentLedger.SentWithinBudget | contracts/cosmos-agent-account/src/lib.rs:345-417 | under an open grant at most its budget plus one relay fee per action leaves |
| AgentLedger.ExactRunsOnce | contracts/cosmos-agent-account/src/lib.rs:337-350 | an exact grant's action runs at most once |
| AgentLedger.NeverBack | contracts/stellar-agent-account/src/lib.rs:260-276 | sequence numbers never go back, and nothing runs under a number once it is void |
| AgentLedger.NoncesDistinct | contracts/stellar-agent-account/src/lib.rs:501-502 | the actions of a run have strictly increasing nonces |
| AgentLedger.DigestsDistinct | contracts/stellar-agent-account/src/lib.rs:461-468 | no two actions of a run are signed over one digest, or the hash collides |
| AccountData.CheckGrant | contracts/stellar-agent-account/src/lib.rs:249-258 | a grant is taken for checked exactly when it is proven under the state root and names this account |
| AccountData.Data.Take | contracts/cosmos-agent-account/src/lib.rs:255-285 | installing a grant that follows is the ledger's install step, a new number starting afresh |
| AccountData.Data.CheckLimits | contracts/cosmos-agent-account/src/lib.rs:334-361 | an action is within limits exactly as the ledger says, refund, budget, exact use and overflow included |
| AccountData.Data.Move | contracts/cosmos-agent-account/src/lib.rs:350-404 | counting an allowed action is the ledger's act step |
| CosmosAccount.SendsExactly | contracts/cosmos-agent-account/src/lib.rs:409-417 | the messages of an action send its amount and its refund, no more |
| CosmosAccount.ActSends | contracts/cosmos-agent-account/src/lib.rs:405-417 | the amount goes to the target's address, the refund to the caller, all in the grant's denomination; the target is called exactly by an execute action, with its data |
| CosmosAccount.ActReports | contracts/cosmos-agent-account/src/lib.rs:395-402 | exactly a payment reports, and the report is of this grant, the action's nonce, what was bought and what was paid |
| CosmosAccount.ActIsSigned | contracts/cosmos-agent-account/src/lib.rs:352-394 | an action run under an open grant is signed, for the account's next nonce, by one committed key, above the threshold by two of different operators, or the hash collides |
| CosmosAccount.SignedActionRuns | contracts/cosmos-agent-account/src/lib.rs:352-404 | a signed action within the terms of a live open grant does run |
| CosmosAccount.ExactActionIsOne | contracts/cosmos-agent-account/src/lib.rs:339-351 | two actions accepted under one exact grant are the same bytes, or collide |
| CosmosAccount.AssetIsNamed | contracts/cosmos-agent-account/src/lib.rs:275-278 | a grant is taken only with its asset's own name |
| CosmosAccount.AfterFirstIs | contracts/cosmos-agent-account/src/lib.rs:278-278 | the denomination is what follows the first separator |
| CosmosAccount.AddressWordValue | contracts/cosmos-agent-account/src/lib.rs:250-253 | a canonical address and its word are the same number |
| CosmosAccount.Account.Sync | contracts/cosmos-agent-account/src/lib.rs:243-291 | a grant installs exactly when it is proven, is this account's, follows the installed one and names its asset; the ledger moves by that step, otherwise not at all |
| CosmosAccount.Account.Act | contracts/cosmos-agent-account/src/lib.rs:317-427 | an action runs exactly when the ledger allows it and it is authorized and deliverable; the ledger, messages and report are those of that step |
| SorobanAccount.MovesExactly | contracts/stellar-agent-account/src/lib.rs:380-422 | the calls that may pass together take exactly the checked amount of the grant's asset out of the account, and nothing of any other token |
| SorobanAccount.AuthorizedMovesAmount | contracts/stellar-agent-account/src/lib.rs:378-425 | whatever is authorized takes what the action says, in the asset granted, and nothing of any other token |
| SorobanAccount.AuthorizedCall | contracts/stellar-agent-account/src/lib.rs:362-378 | the call let pass is the action's contract and function; under an open grant the action carries the payload, and the call is one of the committed targets, or the hash collides |
| SorobanAccount.AuthorizedIsSigned | contracts/stellar-agent-account/src/lib.rs:461-499 | what is authorized under an open grant is signed, for the account's next nonce, by one committed key, above the threshold by two of different operators, or the hash collides |
| SorobanAccount.TransferAuthorized | contracts/stellar-agent-account/src/lib.rs:336-505 | a transfer of the grant's asset that a signed action names, within the grant's terms, goes through |
| SorobanAccount.AssetIsNamed | contracts/stellar-agent-account/src/lib.rs:274-279 | a grant is taken only with its asset's own name |
| SorobanAccount.AfterLastSplits | contracts/stellar-agent-account/src/lib.rs:145-145 | the asset's address is what follows the last colon |
| SorobanAccount.CheckMoved | contracts/stellar-agent-account/src/lib.rs:380-422 | the rule for each function and the nested transfer, with every case that must not pass refused |
| SorobanAccount.CheckSignersInOrder | contracts/stellar-agent-account/src/lib.rs:469-499 | the loop that remembers the first operator accepts exactly the signers the grant asks for |
| SorobanAccount.Account.Sync | contracts/stellar-agent-account/src/lib.rs:239-289 | as on CosmWasm, within the contract's buffer sizes |
| SorobanAccount.Account.CheckAuth | contracts/stellar-agent-account/src/lib.rs:336-505 | calls are authorized exactly when the ledger allows the action, the action describes the calls and it is authorized; the ledger moves by that step |
| SorobanAccount.Account.Pay | contracts/stellar-agent-account/src/lib.rs:295-318 | a payment passes exactly when authorized and transferable, and reports the grant, the action's nonce, what was bought and the amount moved |
| Finality.JournalDecodeEncode | contracts/finality-verifier/src/lib.rs:304-333 | every journal is read back from its thirteen words |
| Finality.JournalEncodeDecode | contracts/finality-verifier/src/lib.rs:304-333 | the only bytes that decode to a journal are its encoding |
| Finality.ClaimBinds | contracts/finality-verifier/src/lib.rs:167-187 | a claim digest is of one program and one journal, or the hash collides |
| Finality.Ledger.SubmitCheckpoint | contracts/finality-verifier/src/lib.rs:355-384 | the stored client takes a checkpoint exactly as specified, errors in the same order |
| Finality.ProvenIsAccepted | contracts/finality-verifier/src/lib.rs:355-384 | a proven checkpoint of this chain, under the known root of its epoch and not final yet, is accepted |
| Finality.RunKeeps | contracts/finality-verifier/src/lib.rs:355-384 | in every run from genesis: known epochs are 0 to the newest, each committee was stated by an accepted checkpoint of the one before, each accepted checkpoint is kept under its epoch's root, no index is final twice |
| Finality.RunExtends | contracts/finality-verifier/src/lib.rs:373-384 | stored roots and checkpoints never change |
| SolanaState.WriteBytes | contracts/solana/src/lib.rs:131-155 | a write shows in the bytes it covers and nowhere else |
| SolanaState.WithRootView | contracts/solana/src/lib.rs:131-142 | setting a root appends to the epoch table, dropping the oldest of 32, and disturbs no other field |
| SolanaState.WithLatestView | contracts/solana/src/lib.rs:148-155 | recording a checkpoint changes the latest one and no other field |
| SolanaClient.State.CommitteeRoot | contracts/solana/src/lib.rs:124-130 | the search finds the first entry of the epoch in the byte table |
| SolanaClient.State.SetCommitteeRoot | contracts/solana/src/lib.rs:131-142 | the shift and the write append to the table held in the bytes |
| SolanaClient.State.SubmitCheckpoint | contracts/solana/src/lib.rs:198-233 | the byte account takes a checkpoint exactly as the abstract account does |
| SolanaClient.AcceptedAlike | contracts/solana/src/lib.rs:123-156 | what the account accepts, an agreeing unbounded client accepts with the same result |
| SolanaClient.ClientAcceptedAlike | contracts/solana/src/lib.rs:123-156 | what the client accepts, later than the account's latest and of an epoch still held, the account accepts |
| SolanaClient.StaysAgreed | contracts/solana/src/lib.rs:123-156 | accepting keeps the two in agreement, on the window, on what is final and on every field of the latest checkpoint |
| SolanaClient.RunInStep | contracts/solana/src/lib.rs:123-156 | in every run whose accepted checkpoints do not wrap, the table is the newest at most 32 epochs of the unbounded client fed the accepted calls, which accepts them all; accepted indices strictly increase, and the latest checkpoint kept is the last journal accepted, field for field |
| SolanaClient.RunWindowIff | contracts/solana/src/lib.rs:123-156 | over every run the table is a contiguous window exactly when no accepted checkpoint handed over past the last epoch |
| SolanaClient.WrappedRun | contracts/solana/src/lib.rs:131-147 | after one that did, nothing is accepted and the table is no window |
| SolanaClient.WindowKeptIff | contracts/solana/src/lib.rs:131-142 | the table stays a contiguous window exactly when the accepted checkpoint's next epoch does not wrap |
| SolanaClient.WrapReenters | contracts/solana/src/lib.rs:131-142 | when it wraps, epoch 0 is entered again and the table is no window |
| SolanaClient.WrapNeedsLastIndex | contracts/finality-verifier/src/lib.rs:373-384 | only a checkpoint with index 2^64 - 1 can make it wrap |
| Protobuf.PushVarint | contracts/cosmos/src/lib.rs:133-143 | the loop appends the varint of the value |
| Protobuf.ReadBack | contracts/cosmos/src/lib.rs:133-143 | a varint is read back, with what follows it |
| Protobuf.ReadAnyBack | contracts/cosmos/src/lib.rs:158-164 | an `Any` gives back its type and value |
| CosmosClient.WasmReadsData | contracts/cosmos/src/lib.rs:165-179 | 08-wasm reads back exactly the data the client wrapped |
| CosmosClient.KeysDistinct | contracts/cosmos/src/lib.rs:183-197 | distinct records live at distinct storage keys |
| CosmosClient.LightClient.Update | contracts/cosmos/src/lib.rs:294-313 | an update is taken exactly when the client is not frozen and the checkpoint submits; all records move together |
| CosmosClient.PlaySound | contracts/cosmos/src/lib.rs:279-319 | in every run the 08-wasm copies equal the client's records, the latest height is the greatest stored and its index that of a checkpoint that brought it, every consensus state is an accepted checkpoint's field for field, and the committees are kept |
| CosmosClient.FrozenForever | contracts/cosmos/src/lib.rs:291-319 | once frozen nothing changes any more |
| CosmosClient.EntriesAgree | contracts/cosmos/src/lib.rs:361-387 | in one stored state, at one height, one path never has two answers, or the hash is broken |
| CosmosClient.PlayStoresLast | contracts/cosmos/src/lib.rs:211-216 | over every run a height holds the last accepted checkpoint of that state height, or what it began with |
| CosmosClient.EntriesAgreeOverRun | contracts/cosmos/src/lib.rs:294-327 | an answer accepted at a height and one accepted later agree, unless a checkpoint in between rewrote the height with another root, or the hash is broken |
| CosmosClient.EntryKeysDistinct | contracts/cosmos/src/lib.rs:356-359 | different paths are at different keys, or the hash collides |
| CosmosClient.VerifiesOnlyStored | contracts/cosmos/src/lib.rs:369-381 | a frozen client verifies nothing, and no client an unknown height, another revision or another prefix |
| CosmosClient.EntryIsCommitted | contracts/cosmos/src/lib.rs:361-387 | under a committed state's root a path has exactly that state's answer, with the served proof for the converse, or the hash is broken |
| FieldBytes.TimesTenPlus | contracts/finality-verifier/src/lib.rs:55-63 | the carry loop multiplies by ten and adds, and returns what overflowed |
| FieldBytes.Dec | contracts/finality-verifier/src/lib.rs:50-67 | the bytes are the decimal number whenever it fits |
| FieldBytes.SubMod | contracts/finality-verifier/src/lib.rs:212-231 | the borrow loop computes q - y, wrapping exactly when y exceeds q; zero stays zero |
| FieldBytes.NegatesIff | contracts/finality-verifier/src/lib.rs:212-231 | that is below q and cancels y modulo q exactly when y is at most q |
| FieldBytes.SplitValue | contracts/finality-verifier/src/lib.rs:191-199 | the two scalars are the digest read as one little-endian number |
| Quorum.CheckCommittee | contracts/stellar/src/lib.rs:102-114 | the nested loops accept exactly distinct members with a threshold above half and at most all |
| Quorum.CountSigners | contracts/stellar/src/lib.rs:149-163 | the loop counts the distinct members that signed, and fails exactly if a signature recovers to nobody |
| Quorum.QuorumsMeet | contracts/stellar/src/lib.rs:102-163 | any two digests signed by quorums of one committee share a signer |
| BridgeMessages.RecordDecodeEncode | contracts/stellar/src/lib.rs:258-266 | the record written is read back field for field at the offsets execution uses |
| BridgeMessages.RecordEncodeDecode | contracts/stellar/src/lib.rs:283-293 | no other bytes read as that record |
| Bridge.SentIsOnRouteThere | contracts/stellar/src/lib.rs:258-266 | a record sent here decodes at the other end to its fields, on route there, in whole units |
| Bridge.SignedRecordExecutes | contracts/stellar/src/lib.rs:276-307 | a signed, well-routed, unexecuted record of whole units does execute |
| Bridge.ExecutePays | contracts/stellar/src/lib.rs:302-305 | an executed record raises its recipient's balance by its units and nobody else's |
| Bridge.SendTakes | contracts/stellar/src/lib.rs:249-257 | a send lowers its sender's balance by its amount and nobody else's |
| Bridge.HolderMaySend | contracts/stellar/src/lib.rs:249-267 | a holder may send what it has, as long as the record can carry it |
| Bridge.SignedHandoverPasses | contracts/stellar/src/lib.rs:317-337 | a handover to a later committee that the trusted one signed in time goes through |
| BridgeMessages.OutboundInjective | contracts/stellar/src/lib.rs:167-174 | one outbound message carries one record of one route |
| BridgeMessages.HandoverInjective | contracts/stellar/src/lib.rs:178-191 | one handover message names one committee, threshold, index and expiry of one route |
| BridgeMessages.DomainsApart | contracts/stellar/src/lib.rs:37-38 | an outbound message is never a handover message |
| BridgeMessages.DigestNamesMessage | contracts/stellar/src/lib.rs:167-191 | no digest stands for two messages, of either kind or both, or the hash collides |
| Bridge.Contract.InitializeWith | contracts/stellar/src/lib.rs:212-245 | initialization happens once, with a well-formed committee |
| Bridge.Contract.SendToTenzro | contracts/stellar/src/lib.rs:249-267 | sending passes exactly as specified, burns, counts, and emits the encoded record |
| Bridge.Contract.CheckQuorum | contracts/stellar/src/lib.rs:149-163 | a quorum passes exactly when the committee has not expired and at least threshold distinct members signed |
| Bridge.Contract.ExecuteRecord | contracts/stellar/src/lib.rs:276-307 | execution passes exactly for a signed, well-routed, unexecuted record of whole units; it marks and mints, otherwise nothing changes |
| Bridge.Contract.RotateCommittee | contracts/stellar/src/lib.rs:317-337 | rotation passes exactly for a higher set index and a well-formed committee the trusted one signed for |
| BridgeRuns.EveryRun | contracts/stellar/src/lib.rs:207-337 | in every run: supply is initial plus minted less burned, here or by holders elsewhere, each unit the bridge moved against 10^11 of its record; no sequence mints twice; sent records are 1, 2, 3, ...; each committee was signed in by a quorum of the one before; each mint was signed by the committee then trusted |
| BridgeRuns.EveryBalance | contracts/stellar/src/lib.rs:207-337 | over every run each holder has what it began with, plus mints addressed to it and transfers in, less its sends, burns and transfers out |
| BridgeRuns.SetIndexesRise | contracts/stellar/src/lib.rs:317-337 | of two committees of a run the later has the higher set index, on the same route |
| BridgeRuns.MintsShareSigner | contracts/stellar/src/lib.rs:276-307 | two mints under one committee share a member that signed both |
| BridgeRuns.ExpiredForever | contracts/stellar/src/lib.rs:149-152 | once the trusted committee has expired nothing mints or rotates again; supply only falls |
| Asset.SupplyApart | contracts/stellar/src/lib.rs:255-305 | the supply is one holder's balance and what the others hold |
| Text.CheckActionName | crates/tenzro-auth/src/aap.rs:287-310 | the one-pass check accepts exactly dotted names of non-empty components |
| Authority.CoverIsExact | crates/tenzro-auth/src/exchange.rs:185-303 | for all grants of all nine kinds: the child grants nothing the parent does not exactly when the comparison passes but for running limits, or the child grants nothing at all, or the parent lists every contract |
| Authority.RefusedWouldWiden | crates/tenzro-auth/src/exchange.rs:185-303 | every other refusal has a request the child would let through and the parent does not |
| Authority.UsableIff | crates/tenzro-auth/src/engine.rs:1523-1660 | a grant lets some request through exactly when its lists are not empty and its class can be asked for |
| Authority.CoversItself | crates/tenzro-auth/src/exchange.rs:185-303 | equal grants are covered |
| Authority.ConstraintsCoverThemselvesIff | crates/tenzro-auth/src/exchange.rs:402-437 | one constraint object covers itself exactly if its amount, where it has one, is a 128-bit decimal |
| Authority.CapsSubsetOfItselfIff | crates/tenzro-auth/src/exchange.rs:365-391 | any capability list passes as it is exactly if the first capability of each action covers the others of it |
| Authority.CapsNamedOnceIff | crates/tenzro-auth/src/exchange.rs:365-391 | a list naming each action once passes as it is exactly if every constraint covers itself, that is if its amounts are numbers |
| Authority.RepeatedActionRefused | crates/tenzro-auth/src/exchange.rs:369-372 | a list that repeats an action, with amounts that are numbers, and is refused |
| Authority.CoveredGrantsLess | crates/tenzro-auth/src/engine.rs:1523-1660 | a covered grant grants no request its parent does not |
| Authority.GrantedIsWithin | crates/tenzro-auth/src/engine.rs:1523-1660 | a granted request is of the grant's own action, asset, addresses and names, and within its cap |
| Authority.ListedEscrow | crates/tenzro-auth/src/engine.rs:1559-1576 | an escrow named in hexadecimal is granted exactly if listed |
| Authority.ListedResource | crates/tenzro-auth/src/engine.rs:1630-1656 | a class-qualified resource is granted exactly if its class and id are |
| Authority.CoveredPermitsLess | crates/tenzro-auth/src/engine.rs:1697-1779 | covered constraints permit no request their parent's do not |
| Authority.PermittedIsWithin | crates/tenzro-auth/src/engine.rs:1697-1779 | what constraints permit is within their amount, assets, counterparties and resources |
| Authority.ConstraintsExact | crates/tenzro-auth/src/exchange.rs:402-505 | the child's constraints permit nothing the parent's do not exactly when the enforced part of the comparison passes or they permit nothing; the comparison adds texts, chains and protocols |
| Authority.PermittedIff | crates/tenzro-auth/src/engine.rs:833-871 | a request is permitted exactly by a grant and, under a capability list, by the first capability of its action |
| Authority.ActionNamesDistinct | crates/tenzro-auth/src/aap.rs:342-355 | the capability names tell the actions apart |
| Authority.NarrowedPermitsLess | crates/tenzro-auth/src/exchange.rs:144-505 | narrowed grants and capabilities, an empty request for capabilities included, permit nothing more |
| Exchange.NeverWidens | crates/tenzro-auth/src/engine.rs:564-669 | a child token can do nothing its parent cannot |
| Exchange.ChildCarries | crates/tenzro-auth/src/engine.rs:564-664 | a child has its own bearer, is bound to its own key, and carries the grants and capabilities asked for |
| Exchange.RootIssued | crates/tenzro-auth/src/engine.rs:447-530 | a token issued without a delegation is a root, with the bearer, key, grants and lifetime ordered |
| Exchange.IssuedIff | crates/tenzro-auth/src/engine.rs:478-502 | a token is issued exactly if its capabilities have valid names and its window does not outlast it |
| Exchange.PassedOnWhole | crates/tenzro-auth/src/engine.rs:633-643 | a child that takes all the grants and names no capabilities can do exactly what its parent can |
| Exchange.Lifetimes | crates/tenzro-auth/src/engine.rs:591-616 | a child outlasts its parent by no more than the time between the clock reads, and lasts no longer than asked or allowed; its window is inside the parent's and both expiries |
| Exchange.OutlivedIff | crates/tenzro-auth/src/engine.rs:591-616 | however late within a bound the token is issued, it does not outlast its parent, exactly when lifetime and bound fit what the parent has left |
| Exchange.EqualReadsOutlived | crates/tenzro-auth/src/engine.rs:591-616 | with equal clock reads no child outlasts its parent |
| Exchange.MayOutlast | crates/tenzro-auth/src/engine.rs:455-460 | a child that outlasts its parent, by the one second between the reads |
| Exchange.DescentNarrows | crates/tenzro-auth/src/engine.rs:564-669 | along every chain of exchanges authority narrows, windows shrink, expiry moves back but for clock lag |
| Exchange.ChainRecorded | crates/tenzro-auth/src/aap.rs:196-229 | along every chain from a root: the claim lists the bearers, each once, ending in the subject; depth counts them up to 2^32 - 1 and never passes the maximum; the token is bound to the last step's key and carries its grants |
| Exchange.RecordedStep | crates/tenzro-auth/src/engine.rs:617-664 | the child's controller is the parent's subject, its parent id the parent's, and the child is what was asked for |
| Exchange.DepthBounds | crates/tenzro-auth/src/aap.rs:208-228 | below the ceiling chain length is depth plus one and at most the maximum plus one |
| Exchange.AtTheCeilingDepthSticks | crates/tenzro-auth/src/aap.rs:213-216 | at the ceiling every further exchange is granted and the chain outgrows the bound |
| Revocation.Visit | crates/tenzro-auth/src/engine.rs:1284-1325 | one turn of the search revokes the tokens of one DID, queues their bearers, and writes one row per new token |
| Revocation.SearchComplete | crates/tenzro-auth/src/engine.rs:1282-1326 | when the frontier is empty the DIDs met are exactly those reached, the tokens revoked exactly those that fall |
| RevocationEngine.Expand | crates/tenzro-auth/src/engine.rs:1252-1326 | the search ends on every issuance graph, with exactly the reached DIDs, exactly the fallen tokens and one row for each new one |
| RevocationEngine.Engine.Cascade | crates/tenzro-auth/src/engine.rs:1245-1336 | so does the cascade on the engine's state, and it returns how many tokens are new |
| RevocationEngine.ReadBack | crates/tenzro-auth/src/engine.rs:305-345 | the replay loop reads back exactly the tokens, seeds and identities the log revokes |
| RevocationEngine.Engine.Hydrate | crates/tenzro-auth/src/engine.rs:305-361 | a restart is that replay and a cascade from its seeds |
| RevocationEngine.Engine.RevokeJti | crates/tenzro-auth/src/engine.rs:923-953 | revoking a token marks it, logs it and cascades from its bearer, if known |
| RevocationEngine.Engine.RevokeIdentity | crates/tenzro-auth/src/engine.rs:1012-1041 | revoking an identity marks it, logs it and cascades with the tokens it bears; the empty DID is refused |
| RevocationEngine.Engine.IsRevoked | crates/tenzro-auth/src/engine.rs:722-742 | the three lookups refuse exactly a revoked token, a revoked controller or a revoked identity |
| RevocationEffects.RevokeEffect | crates/tenzro-auth/src/engine.rs:923-953 | by the log at the time: exactly those reached from the bearer of the token's latest issuance are cut off, exactly it and the tokens issued under them are revoked, and the rows say whose each was |
| RevocationEffects.RevokeSpares | crates/tenzro-auth/src/engine.rs:923-953 | a token that is not the one revoked, did not fall and was not issued under anyone reached stands as it did |
| RevocationEffects.RevokeUnknownEffect | crates/tenzro-auth/src/engine.rs:1350-1357 | a token never issued is marked and nothing cascades |
| RevocationEffects.WithdrawEffect | crates/tenzro-auth/src/engine.rs:957-969 | withdrawing a token revokes it alone and records whose it was |
| RevocationEffects.RevokeDidEffect | crates/tenzro-auth/src/engine.rs:1012-1041 | exactly those reached from the identity are cut off, exactly the tokens under them and those it bears are revoked |
| RevocationEffects.IssueEffect | crates/tenzro-auth/src/engine.rs:518-530 | issuing records whose token it is and under whom, and changes nothing else |
| RevocationEffects.LookupIssued | crates/tenzro-auth/src/engine.rs:1350-1367 | a token is found to be its latest issuance's bearer's and controller's |
| RevocationEffects.RevokedForever | crates/tenzro-auth/src/engine.rs:923-953 | after a revocation the token and every token issued by then that descends from its bearer, as the log has it, is refused for good |
| RevocationRuns.StepKeeps | crates/tenzro-auth/src/engine.rs:305-361 | every step keeps memory recoverable from the log and forgets nothing |
| RevocationRuns.RunGrows | crates/tenzro-auth/src/engine.rs:305-361 | over every run with restarts no revoked token, controller or identity and no log row is lost |
| RevocationRuns.RefusedForever | crates/tenzro-auth/src/engine.rs:722-742 | a token refused once is refused for good, restarts included |
| RevocationRuns.IdentityRevokedForever | crates/tenzro-auth/src/engine.rs:1012-1041 | after an identity is revoked, its tokens whenever issued and all that descend from it are refused for good |
| RevocationRuns.RestartGrows | crates/tenzro-auth/src/engine.rs:305-361 | rebuilding from the log loses nothing held in memory |
| RevocationRuns.RebuildTwice | crates/tenzro-auth/src/engine.rs:305-361 | a second restart changes neither the sets nor the log |
| RevocationRuns.RestartWritesNothingIff | crates/tenzro-auth/src/engine.rs:349-358 | a restart writes nothing exactly when every token that falls is already logged as revoked |
| RevocationRuns.RestartMayWrite | crates/tenzro-auth/src/engine.rs:349-358 | a log on which it does write |
| RevocationRuns.RunReflects | crates/tenzro-auth/src/engine.rs:305-361 | in every run memory holds everything the log alone says was revoked |
| RevocationRuns.RestartChangesNothingIff | crates/tenzro-auth/src/engine.rs:305-361 | a restart leaves the three revocation sets as they were exactly when every token issued under a revoked controller is revoked and its bearer is a revoked controller |
| RevocationRuns.RunRestartChangesNothingIff | crates/tenzro-auth/src/engine.rs:305-361 | so at every point of every run |
| RevocationRuns.RestartRefusesMore | crates/tenzro-auth/src/engine.rs:349-358 | a token under the bearer of a late one stands before a restart and is refused after it |
| Refresh.Lineages | crates/tenzro-auth/src/engine.rs:1051-1234 | in every run each token is redeemed at most once, each grant has at most one redeemable token, and that token carries the grant's bearer, controller, authorization and expiry |
| Refresh.RefreshTokens.ExchangeToken | crates/tenzro-auth/src/engine.rs:1093-1186 | an exchange passes exactly as specified, spends the token, and hands out the same grant bound to the proven key |
| Refresh.RedeemsIff | crates/tenzro-auth/src/engine.rs:1093-1150 | an exchange passes exactly for a stored, unexpired token of nobody revoked, with proof of the key it is bound to |
| Refresh.RevokedNeverRefreshes | crates/tenzro-auth/src/engine.rs:1119-1130 | after an identity is revoked no token it bears or controls is refreshed, restarts included |
| Refresh.StaysBound | crates/tenzro-auth/src/engine.rs:1136-1158 | once a grant is bound to a key every later token of it is bound to that key |
| Refresh.KeyKept | crates/tenzro-auth/src/engine.rs:1136-1158 | every exchange binds to the key proven, and one of a bound token keeps its key |
| Replay.Guard.GuardReplay | crates/tenzro-auth/src/engine.rs:1404-1457 | an id is accepted exactly when it is not held unexpired and its row was written; memory and rows move with it |
| Replay.Guard.Present | crates/tenzro-auth/src/engine.rs:1192-1202 | a proof is accepted exactly when it is fresh at the caller's clock and the guard, by its own, admits its id |
| Replay.Guard.Sweep | crates/tenzro-auth/src/engine.rs:1408-1429 | a sweep drops exactly what expired, from memory and, where the delete succeeds, from the store |
| Replay.SweepDecidesNothing | crates/tenzro-auth/src/engine.rs:1408-1440 | sweeping never decides which ids are admitted |
| Replay.Guard.Hydrate | crates/tenzro-auth/src/engine.rs:1464-1492 | a restart reads back exactly the rows that have not expired |
| Replay.RunRemembers | crates/tenzro-auth/src/engine.rs:1404-1492 | in every run accepted ids are held until they expire, unexpired rows are in memory, and unexpired memory agrees with its row exactly unless that row's write failed |
| Replay.AcceptedApart | crates/tenzro-auth/src/engine.rs:1404-1457 | a second acceptance of an id comes no sooner than the first one's expiry |
| Replay.TwoMinutesApart | crates/tenzro-auth/src/dpop.rs:36-41 | two acceptances of one id are at least 120 seconds apart, where the expiry fits 64 bits |
| Replay.SaturatedExpiry | crates/tenzro-auth/src/engine.rs:1431-1431 | for every guard clock where it does not fit, and any issue and check times at which the proof is fresh, a run that accepts it twice within less than 120 seconds |
| Replay.OneProofTwiceIff | crates/tenzro-auth/src/engine.rs:1192-1202 | one proof is accepted at two pairs of clock reads in some run exactly when it is fresh at both first reads and the second reads are apart by the time an id is held |
| Replay.TwiceByLag | crates/tenzro-auth/src/dpop.rs:307-313 | that is: the gap between the checks plus the growth of the lag is at least 120 seconds |
| Replay.TwiceAtTheEnds | crates/tenzro-auth/src/dpop.rs:36-41 | with equal reads it is accepted twice exactly at the two ends of its freshness window |
| Replay.TwiceInsideTheWindow | crates/tenzro-auth/src/engine.rs:1404-1405 | with reads apart, accepted twice at other moments |

## Left out

- Curve arithmetic, Groth16, ECDSA, Ed25519, JWT and WebAuthn: parameters of the
  model that answer yes or no.
- Storage engines, transactions and I/O failures, except failed deletes and
  writes of replay rows; versions, pruning, snapshots and hash schemes of the
  state trie.
- JSON: constraint objects, client records and audit rows are values; how a
  constraint object reads is a parameter.
- Concurrency below one call: the locks and entry guards are taken to make calls
  atomic.
- Event ids, timestamps and reasons in audit rows and revocation sets: only who
  and which token.
- Addresses, trust lines and balances on the host chains, beyond what a call
  asks of them. Whether a Stellar token moves when asked is an argument; what
  becomes of the messages a CosmWasm account hands out is not part of this model.
- Events, time-to-live extension and the registry that deploys accounts.
- Leg receipts, governance decisions, introspection, live-token listings,
  Chainlink feeds and the fee oracle: thin readers over the cores above.
- Token lifetimes near 2^64 seconds: clock plus lifetime is taken not to
  overflow.
- Refresh.Lineages: token ids are taken to be fresh, as random ids are; a run that
  repeats one is no run.
- SolanaClient.RunInStep: leaves aside runs that accept a checkpoint handing over past
  the last epoch, where it is false; RunWindowIff says so for every such run.
