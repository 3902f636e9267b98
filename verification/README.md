# MEMBRA: a verified model

This project models the stateful core of MEMBRA and proves what it keeps over whole runs.

| module | component |
|---|---|
| `MonetaryPolicy`, `PayoutOrder`, `SupplyBound`, `Seigniorage` | the mint formula with its 64- and 128-bit arithmetic, when more merit pays less, the counter-cyclical supply bound, and the proof lifecycle submit, attest, verify, mint |
| `Merkle` | tree builder, prover and verifier with promotion of odd last nodes |
| `ProofBook` | the hash-chained log shared by the L3 components |
| `GasVault`, `VaultRuns`, `VaultObject`, `VaultCalls` | fee credits, coverage, reimbursement; runs and conservation; the object; each call in numbers |
| `IntentNetwork`, `Relayer`, `Settlement` | payment intents, the relay, and the whole settlement protocol |
| `Governance` | proposals, votes, finalization, execution |
| `Oracle` | the ring-buffer price oracle |
| `FileNames`, `PersonalChain` | the personal hash chain, its files and their sorted listing |
| `Jobs`, `Escrow`, `Payments`, `ProfitLoop` | the marketplace loop from posted job to released escrow |
| `Sums`, `Wrappers` | sums over dictionaries, optional values, powers of ten |

Each stateful component has a value type for its state, transition functions that give the meaning of every call, lemmas
about every run of those calls, and a class whose methods update fields in place and are proved equal to the transition
functions.

Modelling choices:

- SHA-256 is a term algebra over the hashed fields: collision free, never equal to the genesis hash. Merkle
  leaves are hashed without a prefix, so a leaf is either two hashes one after the other, with the hash of an internal
  node, or other bytes.
- Every clock reading is a parameter of its own, so two readings inside one call may differ. A relayer is known
  by its address. Generated ids are parameters assumed fresh where a run statement needs it. Floats are exact reals;
  integer widths are written out where the code has them.
- Dictionaries are maps; loops over their values visit the keys in any order.
- The seigniorage and vault run statements use the default configurations. The quadratic supply bound holds while
  the 64-bit totals have not wrapped, which is certain while 16 times the proven capacity plus 2.5 million is below 2^64,
  that is for more than 10^14 mints of full difficulty.
- A capacity proof is submitted as a whole record. A fresh one is pending, unattested and unminted; a sound one is
  unminted with a status that follows from attestations by different names, which nobody need have made.

Where code and documentation disagree the model follows the code: the mint product is divided by 10^16 (a comment says
10T); coverage is reserves over outstanding credits (the class comment adds the credits to the reserves); the marketplace
counts votes where the text says validators; a receipt that fails its checks still settles; a second deposit for a job
overwrites the first; receipts and anchors are not written to disk unless a notary attestation follows; and Merkle proofs
of promoted leaves do not verify.

## Model
| member | source | states |
|---|---|---|
| `MonetaryPolicy.ProductNeverWraps` | membra-l3-cpp/src/zk_seigniorage.cpp:20-64 | for every 64-bit base reward the 128-bit product of the five factors does not wrap, so the payout is the 64-bit narrowing of the exact quotient, capped |
| `MonetaryPolicy.PayoutIsIdeal` | membra-l3-cpp/src/zk_seigniorage.cpp:51-63 | the payout never exceeds max_mint_per_proof and equals the capped exact amount if and only if that amount fits in 64 bits or the cap hides the loss |
| `MonetaryPolicy.TierCountsThresholds` | membra-l3-cpp/src/zk_seigniorage.cpp:100-106 | with ascending thresholds the tier is one more than the number of thresholds the locked value reaches |
| `MonetaryPolicy.DefaultTiers` | membra-l3-cpp/include/zk_seigniorage.hpp:139-143 | the default tiers begin at 10^7, 10^8, 10^9 and 10^10 |
| `MonetaryPolicy.DefaultLimits` | membra-l3-cpp/include/zk_seigniorage.hpp:20-24 | the default base reward, cap, target and verifier count in numbers |
| `MonetaryPolicy.BonusSteps` | membra-l3-cpp/src/zk_seigniorage.cpp:41-46 | the bonus is 1.0x up to the required verifiers, 0.1x more for each further one and 1.5x from the fifth on |
| `MonetaryPolicy.EpochsTakeDays` | membra-l3-cpp/src/zk_seigniorage.cpp:93-98 | over any clock readings the epoch advances, modulo 2^64, once for each reading a day or more after the last rollover, and nothing else changes |
| `MonetaryPolicy.AdjustmentMonotone` | membra-l3-cpp/src/zk_seigniorage.cpp:66-86 | when the target ratio times 10^4 fits in 64 bits, more capacity and less supply never lower the network adjustment, if there is capacity or the first unit of it would already meet the target ratio |
| `MonetaryPolicy.AdjustmentMonotoneExactly` | membra-l3-cpp/src/zk_seigniorage.cpp:66-86 | no roomier configuration has a lower adjustment if and only if there is capacity or minted tokens times 10^4 do not exceed the target ratio |
| `MonetaryPolicy.ZeroCapacityJump` | membra-l3-cpp/src/zk_seigniorage.cpp:66-69 | for every configuration outside that condition the first unit of capacity lowers the adjustment below its full value |
| `MonetaryPolicy.PayoutMonotone` | membra-l3-cpp/src/zk_seigniorage.cpp:20-86 | under the same condition the payout is monotone in difficulty, tier, attestations and capacity, antitone in minted supply, and capped, unless the higher payout itself is cut by the narrowing to 64 bits |
| `MonetaryPolicy.MoreCollateralNeverPaysLess` | membra-l3-cpp/src/zk_seigniorage.cpp:100-106 | the derived tier is between 1 and 5 and monotone in the locked value, and so is the payout of an otherwise equal proof unless the higher payout is cut by the narrowing |
| `MonetaryPolicy.WrappedPayoutFalls` | membra-l3-cpp/src/zk_seigniorage.cpp:59-63 | concrete configuration in which a harder proof pays less |
| `MonetaryPolicy.RewardFits` | membra-l3-cpp/src/zk_seigniorage.cpp:51-63 | if 3.75 times the base reward fits in 64 bits no payout is ever cut |
| `PayoutOrder.MeritNeverPaysLessExactly` | membra-l3-cpp/src/zk_seigniorage.cpp:20-64 | for every configuration: no proof of no less difficulty, tier and attestations is ever paid less if and only if no verified proof's payout is cut by the narrowing with the cap not hiding it |
| `PayoutOrder.AroundCrossing` | membra-l3-cpp/src/zk_seigniorage.cpp:51-63 | below any amount past 2^64 there are two neighbouring difficulties, the lower one's amount just below 2^64 and the higher one's just above |
| `PayoutOrder.MeritClosedForm` | membra-l3-cpp/src/zk_seigniorage.cpp:20-64 | for every cap of at least 2^64 / 2000 that is so if and only if the exact amount of the best proof fits in 64 bits |
| `SupplyBound.DefaultMintRange` | membra-l3-cpp/src/zk_seigniorage.cpp:20-64 | under the default configuration a mint pays at most a 40th of difficulty times adjustment, at most 250 times difficulty, and at least 1 once that product reaches 400 |
| `SupplyBound.DefaultMintExactly` | membra-l3-cpp/src/zk_seigniorage.cpp:20-64 | a default mint pays k * difficulty * adjustment / 400, rounded down, k being 2, 4, 6 and 10 for tiers 2 to 5 and 1 otherwise |
| `SupplyBound.DefaultAdjustmentExactly` | membra-l3-cpp/src/zk_seigniorage.cpp:66-86 | the default adjustment is 10000 while supply is below a 10000th of capacity, else 10^8 over the ratio in basis points, at most 10000 |
| `SupplyBound.Drag` | membra-l3-cpp/src/zk_seigniorage.cpp:71-85 | through both floor divisions, adjustment times supply is at most 10001 times capacity |
| `SupplyBound.AboveTheLine` | membra-l3-cpp/src/zk_seigniorage.cpp:71-85 | whenever supply squared exceeds 251 capacity squared the adjustment is at most 631 basis points |
| `SupplyBound.MintKeepsBound` | membra-l3-cpp/src/zk_seigniorage.cpp:20-91 | one mint at the current adjustment keeps supply squared within 251 capacity squared plus 62249 * 10^8 |
| `SupplyBound.AdjustmentFloor` | membra-l3-cpp/src/zk_seigniorage.cpp:66-86 | while supply is at most 250 times capacity the adjustment is at least 40 basis points |
| `Seigniorage.StepKeeps` | membra-l3-cpp/src/zk_seigniorage.cpp:125-238 | every manager call with a sound submission keeps the whole invariant: record shape, nullifier correspondence, counters, supply bound; supply grows by exactly what is paid |
| `Seigniorage.RunKeeps` | membra-l3-cpp/src/zk_seigniorage.cpp:125-238 | the invariant holds after every run of submit, attest, mint and epoch rollover with sound submissions |
| `Seigniorage.SubmitExactly` | membra-l3-cpp/src/zk_seigniorage.cpp:125-140 | a submission is accepted exactly for a new id, difficulty 1 to 10000 and a circuit name of 1 to 64 characters, and only stores and counts the record |
| `Seigniorage.AttestExactly` | membra-l3-cpp/src/zk_seigniorage.cpp:142-184 | an attestation is accepted exactly for a pending proof with at most four, from a new verifier; it is appended as given and verifies the proof at the required count |
| `Seigniorage.MintExactly` | membra-l3-cpp/src/zk_seigniorage.cpp:186-238 | a mint pays exactly for a verified, unminted proof with unused nullifier and positive amount, and then proof, nullifier, engine and statistics record it |
| `Seigniorage.SubmitKeepsExactly` | membra-l3-cpp/src/zk_seigniorage.cpp:125-140 | an accepted submission keeps the invariant if and only if its record is unminted and its status follows from attestations by different names; the code checks neither |
| `Seigniorage.SupplyStaysBounded` | membra-l3-cpp/src/zk_seigniorage.cpp:20-91 | in every run total minted is at most 250 times proven capacity; the engine's counters are the true totals exactly while both fit in 64 bits, and then M^2 <= 251 C^2 + 62249 * 10^8 and M <= 16 C + 2.5 million; they do fit while 16 C + 2.5 million does |
| `Seigniorage.BoundAttained` | membra-l3-cpp/src/zk_seigniorage.cpp:125-238 | a four-call run reaches the bound with equality, one mint paying 250 times its difficulty |
| `Seigniorage.PolicyNeverStarves` | membra-l3-cpp/src/zk_seigniorage.cpp:41-86 | in every run a verified proof has exactly two attestations by distinct verifiers and bonus 1.0x, the adjustment is at least 40 bps, and a verified unminted proof of difficulty 10 or more with an unused nullifier mints at least 1 |
| `Seigniorage.PaymentsAccounted` | membra-l3-cpp/src/zk_seigniorage.cpp:186-238 | in every run used nullifiers and minted proofs correspond one to one, config total, stats total and the sum over proofs agree, no proof is paid twice and the payments sum to the supply |
| `Seigniorage.NullifierNamesOneProof` | membra-l3-cpp/src/zk_seigniorage.cpp:202-222 | in every run two minted proofs share a nullifier only if they are the same proof, and that nullifier is used |
| `Seigniorage.StatisticsAgree` | membra-l3-cpp/src/zk_seigniorage.cpp:125-238 | in every run of fresh submissions the submitted, verified and minted counters count the stored proofs, the verified proofs and the used nullifiers modulo 2^64 |
| `Seigniorage.InitialCounts` | membra-l3-cpp/include/zk_seigniorage.hpp:228-236 | a new manager has counted nothing and is in epoch 1 |
| `Seigniorage.SubmitCounts` | membra-l3-cpp/src/zk_seigniorage.cpp:125-140 | an accepted submission keeps the statistics exact if and only if it is not submitted as already verified |
| `Seigniorage.ForgedSubmissionMints` | membra-l3-cpp/src/zk_seigniorage.cpp:125-140 | a record submitted as already verified is stored as given and mints 2.5 million with no attest call; the invariant notices it if and only if it does not carry two attestations by different names, which may be invented |
| `Seigniorage.AttestationsMade` | membra-l3-cpp/src/zk_seigniorage.cpp:125-184 | in every run each attestation on record was there at the start, was made by an attest call of the run or came with one of its submissions |
| `Seigniorage.MintedWasAttested` | membra-l3-cpp/src/zk_seigniorage.cpp:142-238 | from a state with no attestation of the proof, a run of fresh submissions mints it only with two attestations made by attest calls of different verifiers |
| `Seigniorage.MintNeedsCallsExactly` | membra-l3-cpp/src/zk_seigniorage.cpp:125-238 | for every accepted submission of difficulty 10 or more with an unused nullifier, while the counters have not wrapped: it is minted only after two attest calls of different verifiers, whatever calls follow, if and only if it is submitted unminted and rejected, or pending with its count at the limit or a number of attestations that is 0 or 255 modulo 256; among sound ones exactly those without attestations |
| `Seigniorage.MonetaryPolicyEngine.RecordMint` | membra-l3-cpp/src/zk_seigniorage.cpp:88-91 | capacity grows by the difficulty and supply by the amount, both modulo 2^64, nothing else changes |
| `Seigniorage.MonetaryPolicyEngine.CheckEpochRollover` | membra-l3-cpp/src/zk_seigniorage.cpp:93-98 | the epoch advances exactly when a day has passed since the last rollover |
| `Seigniorage.ZKSeigniorageManager.SubmitCapacityProof` | membra-l3-cpp/src/zk_seigniorage.cpp:125-140 | state and answer are those of the submit transition, including the three refusals |
| `Seigniorage.ZKSeigniorageManager.AttestCapacityProof` | membra-l3-cpp/src/zk_seigniorage.cpp:142-184 | state and answer are those of the attest transition, with the duplicate scan as a loop and auto-verification at the threshold |
| `Seigniorage.ZKSeigniorageManager.MintFromCapacityProof` | membra-l3-cpp/src/zk_seigniorage.cpp:186-238 | proofs, nullifiers, engine totals, statistics and the returned amount are those of the mint transition |
| `Merkle.RoundTrip` | membra-l3-cpp/src/merkle_provenance.cpp:41-64 | for every leaf list in which no leaf is two concatenated hashes, and every index, the generated proof verifies against the root if and only if no level promotes the leaf's ancestor as an odd last node |
| `Merkle.RoundTripAnyData` | membra-l3-cpp/src/merkle_provenance.cpp:41-64 | for any leaf data the generated proof verifies if and only if wherever the verifier combines on the wrong side both sides are the same hash; it does whenever no level promotes the leaf's ancestor |
| `Merkle.RoundTripLeftBlock` | membra-l3-cpp/src/merkle_provenance.cpp:248-305 | every leaf below a power of two that is at most n verifies; for n a power of two all leaves do |
| `Merkle.ThreeLeavesFail` | membra-l3-cpp/src/merkle_provenance.cpp:278-285 | the last of three leaves verifies if and only if its data is the hashes of the first two, one after the other |
| `Merkle.ClimbReachesTop` | membra-l3-cpp/src/merkle_provenance.cpp:268-305 | the equivalence with promotion for any level whose nodes but the last cover equally many leaves |
| `Merkle.ClimbAgrees` | membra-l3-cpp/src/merkle_provenance.cpp:41-64 | for any level, position and index bits the climb reaches the root if and only if every wrong-side combination joins equal hashes |
| `Merkle.NeverRejoins` | membra-l3-cpp/src/merkle_provenance.cpp:41-64 | a verifier whose hash has left the true path never rejoins it |
| `Merkle.PromotionDerails` | membra-l3-cpp/src/merkle_provenance.cpp:279-285 | after a promotion the verifier's even index combines on the wrong side, and the two sides cover different numbers of leaves |
| `Merkle.PromotedSomewhere` | membra-l3-cpp/src/merkle_provenance.cpp:217-241 | the recursive promotion test is equivalent to some level k having odd length above one with the leaf's ancestor last |
| `Merkle.Binding` | membra-l3-cpp/src/merkle_provenance.cpp:41-64 | for a leaf that is never promoted, any proof of the right length that verifies carries the true leaf hash and exactly the true siblings |
| `Merkle.PerfectBinding` | membra-l3-cpp/src/merkle_provenance.cpp:41-64 | for 2^h leaves any verifying proof with h siblings and an index in range is the generated proof |
| `Merkle.ClimbModulo` | membra-l3-cpp/src/merkle_provenance.cpp:41-64 | the verifier depends on the index only modulo 2 to the number of siblings |
| `Merkle.PerfectProofsExactly` | membra-l3-cpp/src/merkle_provenance.cpp:41-64 | for 2^h leaves a proof with k <= h siblings and any index verifies if and only if it is the path of the node at that index modulo 2^k, k levels below the root; below h it shows an internal node as a leaf |
| `Merkle.LongProofsExactly` | membra-l3-cpp/src/merkle_provenance.cpp:41-64 | with more than h siblings it verifies if and only if it continues the path of a leaf below that leaf, whose hash is then that of two hashes |
| `Merkle.BottomUpIsSplit` | membra-l3-cpp/src/merkle_provenance.cpp:217-246 | bottom-up pairing with promotion gives the root of the tree of section 2.1 of RFC 6962, each list split at a power of two that is below its length and at least half of it |
| `Merkle.LevelsEndInTop` | membra-l3-cpp/src/merkle_provenance.cpp:239-245 | the concatenation of all levels ends in the root |
| `Merkle.StoredNodesTrue` | membra-l3-cpp/src/merkle_provenance.cpp:12-38 | every stored node is a leaf of the data without children or carries the hash of its two recorded children |
| `Merkle.Verify` | membra-l3-cpp/src/merkle_provenance.cpp:41-64 | the sibling loop answers whether the climb from the leaf reaches the given root |
| `Merkle.BuildNextLevel` | membra-l3-cpp/src/merkle_provenance.cpp:222-237 | the pairing loop yields one node per pair and promotes an odd last node unchanged |
| `Merkle.CollectSiblings` | membra-l3-cpp/src/merkle_provenance.cpp:268-305 | the proof loop collects the sibling of every ancestor that has one, bottom up |
| `Merkle.MerkleTreeBuilder.AddLeaf` | membra-l3-cpp/src/merkle_provenance.cpp:193-195 | appends the leaf node of the data |
| `Merkle.MerkleTreeBuilder.BuildTree` | membra-l3-cpp/src/merkle_provenance.cpp:217-246 | nodes_ becomes the concatenation of all levels |
| `Merkle.MerkleTreeBuilder.BuildRoot` | membra-l3-cpp/src/merkle_provenance.cpp:197-215 | returns zeros for no leaves, otherwise the root of the recursively split tree |
| `Merkle.MerkleTreeBuilder.GenerateProof` | membra-l3-cpp/src/merkle_provenance.cpp:248-266 | returns leaf hash, index and siblings, or an out-of-range error exactly when the index is not a leaf |
| `ProofBook.AppendsVerify` | membra-l3/membra_l3/proof_book.py:66-92 | every append sequence leaves a log that passes chain verification, extends the previous log and holds the appended records in order |
| `ProofBook.LastHashBinds` | membra-l3/membra_l3/proof_book.py:83-92 | two verifying logs with equal last hash are equal entry by entry |
| `ProofBook.LogsWithEqualHashAreEqual` | membra-l3/membra_l3/proof_book.py:66-92 | two logs built by appends have equal last hash if and only if the append sequences are equal |
| `ProofBook.AppendLogs` | membra-l3/membra_l3/proof_book.py:66-71 | an append adds one entry with the given data, linked to the last hash and sealed over all of it |
| `ProofBook.LatestIsSuffix` | membra-l3/membra_l3/proof_book.py:73-81 | the query returns the last so many entries in order |
| `ProofBook.LatestFindsExactly` | membra-l3/membra_l3/proof_book.py:73-81 | the query by type finds a hash exactly when an entry of the type has it and fewer than the limit of its type came later |
| `ProofBook.ProofLog.Append` | membra-l3/membra_l3/proof_book.py:66-71 | appends the sealed entry, moves the last hash and keeps the chain valid |
| `ProofBook.ProofLog.VerifyChain` | membra-l3/membra_l3/proof_book.py:83-92 | answers whether every link and every stored hash is right |
| `GasVault.ConsumeFlips` | membra-l3/membra_l3/gas_vault.py:156-164 | consumption turns exactly the requested credits that were active to used, each once, and changes nothing else |
| `GasVault.ConsumeMoves` | membra-l3/membra_l3/gas_vault.py:156-164 | the consumed total leaves the active sum and enters the used sum |
| `GasVault.PaysAllExactly` | membra-l3/membra_l3/gas_vault.py:156-164 | every requested credit is paid for, in order, if and only if the list has no repetition and names only active credits |
| `GasVault.IndexAgrees` | membra-l3/membra_l3/gas_vault.py:231-235 | the per-user index sums to the same value as filtering all credits by user |
| `GasVault.DepositKeepsExactly` | membra-l3/membra_l3/gas_vault.py:69-77 | a deposit of any sign keeps the vault invariant if and only if the guard of withdraw_sol would pass; non-negative ones always do |
| `GasVault.WithdrawKeeps` | membra-l3/membra_l3/gas_vault.py:79-94 | a withdrawal, granted or refused, keeps coverage, cap, index and backing |
| `GasVault.WithdrawGrantedExactly` | membra-l3/membra_l3/gas_vault.py:79-94 | a withdrawal is granted, and reserves drop by it, if and only if the remainder is not negative and covers the unexpired credits 1.5 times |
| `GasVault.IssueKeeps` | membra-l3/membra_l3/gas_vault.py:98-148 | issuing, granted or refused, keeps coverage, the per-user cap, the index and the backing by a logged compute proof |
| `GasVault.IssueGrantedExactly` | membra-l3/membra_l3/gas_vault.py:98-148 | a credit is issued if and only if the proof is on record, the user is below the cap, the work earns something and coverage of the new total holds; its amount is the earned amount cut at the rest of the cap |
| `GasVault.ReimburseAlwaysPays` | membra-l3/membra_l3/gas_vault.py:168-207 | in a covered vault whatever is consumed is paid in full and recorded with the call's data: neither refusal after consumption is reachable, and coverage is kept |
| `VaultRuns.StepKeeps` | membra-l3/membra_l3/gas_vault.py:69-254 | every vault call keeps the invariant |
| `VaultRuns.VaultStaysSolvent` | membra-l3/membra_l3/gas_vault.py:69-254 | in every interleaving reserves are at least 1.5 times the active credits, every user's active total is within the cap and agrees with the index, and every credit's proof reference is a logged compute receipt |
| `VaultRuns.NegativeDepositBreaksSolvency` | membra-l3/membra_l3/gas_vault.py:69-71 | deposit_sol accepts a negative amount: one such call breaks coverage and the next reimbursement consumes a credit without paying |
| `VaultRuns.ReservesReplay` | membra-l3/membra_l3/gas_vault.py:69-94 | in every run reserves equal the opening balance plus the fold of the deposit, withdrawal and reimbursement entries |
| `VaultRuns.LoggedBalancesTrue` | membra-l3/membra_l3/gas_vault.py:72-93 | every new_reserves figure logged in a run is the true balance at that entry |
| `VaultRuns.CreditsConserved` | membra-l3/membra_l3/gas_vault.py:156-207 | in every run each used credit belongs to the list of one reimbursement or was consumed directly, each reimbursement pays the sum of its list, and the used total is the reimbursed total plus the directly consumed total |
| `VaultRuns.ReimbursementsBalance` | membra-l3/membra_l3/gas_vault.py:69-207 | when credits are consumed only by reimbursement: the log replays the reserves, reimbursements sum to the used credits, and each used credit is paid for in exactly one reimbursement |
| `VaultRuns.RecordedListMayRepeat` | membra-l3/membra_l3/gas_vault.py:188-197 | a reimbursement records the caller's id list, which may name a credit already paid for; only the active one is paid |
| `VaultRuns.RecordsPaidExactly` | membra-l3/membra_l3/gas_vault.py:168-207 | over every run the recorded id lists are the paid lists if and only if every paying call named no credit twice and only active ones |
| `VaultRuns.RecordedListsDisjoint` | membra-l3/membra_l3/gas_vault.py:168-207 | then no credit is in two recorded lists or twice in one, all are used, and each amount is the sum of its list |
| `VaultObject.GasVaultLedger.DepositSol` | membra-l3/membra_l3/gas_vault.py:69-77 | state and log are those of the deposit transition |
| `VaultObject.GasVaultLedger.WithdrawSol` | membra-l3/membra_l3/gas_vault.py:79-94 | state, log and answer are those of the withdrawal transition with both guards |
| `VaultObject.GasVaultLedger.IssueCredit` | membra-l3/membra_l3/gas_vault.py:98-148 | state, log and credit are those of the issue transition with its four refusals |
| `VaultObject.GasVaultLedger.GetUserCredits` | membra-l3/membra_l3/gas_vault.py:150-154 | expires stale credits and returns, in index order, exactly the user's credits that are active with their time not yet come |
| `VaultObject.GasVaultLedger.ConsumeCredits` | membra-l3/membra_l3/gas_vault.py:156-164 | the loop leaves the consumed credits and returns the sum of those flipped |
| `VaultObject.GasVaultLedger.ReimburseRelayer` | membra-l3/membra_l3/gas_vault.py:168-207 | state, log and reimbursement are those of the reimbursement transition |
| `VaultObject.GasVaultLedger.TotalOutstanding` | membra-l3/membra_l3/gas_vault.py:226-229 | expires stale credits and returns the sum of the active ones |
| `VaultObject.GasVaultLedger.UserOutstanding` | membra-l3/membra_l3/gas_vault.py:231-235 | expires stale credits and returns the active sum over the user's index |
| `VaultObject.GasVaultLedger.CoverageRatioAfter` | membra-l3/membra_l3/gas_vault.py:243-248 | expires stale credits and returns reserves plus delta over outstanding, unbounded when nothing is outstanding |
| `VaultObject.GasVaultLedger.ExpireStaleCredits` | membra-l3/membra_l3/gas_vault.py:250-254 | exactly the active credits with expires_at at or before now become expired; every other credit is as it was |
| `VaultObject.ReturnedExactly` | membra-l3/membra_l3/gas_vault.py:150-154 | the credits returned are, in index order, exactly those active with now before their expiry |
| `VaultCalls.IssuedCreditLifetime` | membra-l3/membra_l3/gas_vault.py:129-136 | an issued credit is returned to its user exactly until 86400 seconds after the reading its expiry is taken from |
| `VaultCalls.ProofOnRecordExactly` | membra-l3/membra_l3/gas_vault.py:105-108 | a proof backs a credit exactly when it is a logged compute receipt with fewer than 50 later ones |
| `VaultCalls.TruncateExactly` | membra-l3/membra_l3/gas_vault.py:117-117 | the earned amount is cut toward zero |
| `VaultCalls.DepositExactly` | membra-l3/membra_l3/gas_vault.py:69-77 | a deposit adds its amount to the reserves and logs amount, source and new balance |
| `VaultCalls.WithdrawExactly` | membra-l3/membra_l3/gas_vault.py:79-94 | a withdrawal is granted exactly when what remains is not negative and covers the unexpired credits 1.5 times, and is logged; otherwise at most stale credits expire |
| `VaultCalls.IssueExactly` | membra-l3/membra_l3/gas_vault.py:98-148 | an issued credit is stored for 86400 seconds, indexed last under its user and logged; a refusal leaves at most expired credits |
| `VaultCalls.ReimburseExactly` | membra-l3/membra_l3/gas_vault.py:168-207 | whatever is consumed is recorded and logged with the coverage it leaves; a call that consumes nothing leaves no trace |
| `IntentNetwork.StepKeepsNonces` | membra-l3/membra_l3/intent_network.py:88-133 | every call keeps each sender's nonces exactly 0 to next - 1, each used by one intent |
| `IntentNetwork.StepAdvances` | membra-l3/membra_l3/intent_network.py:88-197 | every call leaves claimed, expired and cancelled intents as they are and lets a settling intent only become claimed |
| `IntentNetwork.ClaimWindow` | membra-l3/membra_l3/intent_network.py:88-174 | an approved token and positive amount are accepted with the next nonce; the intent can be claimed exactly while seven days are not over; a confirmed claim can be neither claimed nor cancelled again |
| `IntentNetwork.TokensExactly` | membra-l3/membra_l3/config.py:86-100 | six tokens are approved, with 9, 18 or 6 decimals |
| `IntentNetwork.CreateExactly` | membra-l3/membra_l3/intent_network.py:88-133 | an intent is created exactly for an approved token and a positive amount, pending for 604800 seconds with the sender's next nonce, and logged |
| `IntentNetwork.ClaimExactly` | membra-l3/membra_l3/intent_network.py:135-152 | a claim succeeds exactly for a pending intent whose window is open and only marks it settling |
| `IntentNetwork.ConfirmExactly` | membra-l3/membra_l3/intent_network.py:154-174 | a confirmation succeeds exactly for a settling intent, records transaction, relayer and credits, and is logged |
| `IntentNetwork.CancelExactly` | membra-l3/membra_l3/intent_network.py:176-191 | a cancellation succeeds exactly for the sender of a pending intent whose window is open, and is logged |
| `IntentNetwork.ExpirePointwise` | membra-l3/membra_l3/intent_network.py:193-197 | exactly the pending intents whose window is over at their reading expire |
| `IntentNetwork.IntentBoard.CreateIntent` | membra-l3/membra_l3/intent_network.py:88-133 | intents, nonce, log and answer are those of the create transition |
| `IntentNetwork.IntentBoard.ClaimIntent` | membra-l3/membra_l3/intent_network.py:135-152 | a claimable intent becomes settling; otherwise nothing changes |
| `IntentNetwork.IntentBoard.ConfirmSettlement` | membra-l3/membra_l3/intent_network.py:154-174 | a settling intent becomes claimed with transaction, relayer and credits recorded and logged |
| `IntentNetwork.IntentBoard.CancelIntent` | membra-l3/membra_l3/intent_network.py:176-191 | only the sender cancels, only while claimable, and it is logged |
| `IntentNetwork.IntentBoard.ExpireAll` | membra-l3/membra_l3/intent_network.py:193-197 | exactly the pending intents past their window at their own clock reading become expired |
| `Relayer.SelectionIsShortest` | membra-l3/membra_l3/relayer.py:196-209 | the chosen credits are the shortest non-empty prefix of the credits sorted by amount that reaches the target, and reach it exactly when all credits together do |
| `Relayer.ChosenFacts` | membra-l3/membra_l3/relayer.py:108-127 | the chosen credits are distinct and active, all of them are consumed, and they reach gas plus minimum profit exactly when the user's whole active total does |
| `Relayer.RelayAllOrNothing` | membra-l3/membra_l3/relayer.py:73-174 | from any vault state satisfying its invariant a relay leaves everything but expiry untouched, or ends with the intent claimed, exactly the chosen credits used, one reimbursement recorded for them and reserves lower by gas plus profit with profit at least the minimum; a failed reimbursement is unreachable; the unprofitable refusal happens exactly when the active credits fall short |
| `Relayer.RelayInNumbers` | membra-l3/membra_l3/relayer.py:73-194 | which answer a relay gives, each refusal by an exact condition in numbers; gas is 5000 for SOL and 15000 otherwise, and reimbursement is gas plus profit |
| `Relayer.LimitExactly` | membra-l3/membra_l3/relayer.py:80-93 | the transfer limit binds approved tokens only, SOL at 150 dollars, MEMBRA at a cent, the others at one |
| `Relayer.SelectCredits` | membra-l3/membra_l3/relayer.py:196-209 | the filter, sort and accumulate loop returns that selection |
| `Relayer.RelayAgent.RelayIntent` | membra-l3/membra_l3/relayer.py:73-174 | vault, network, log, counters and result are those of the relay transition, with gas 5000 for SOL and 15000 otherwise |
| `Settlement.RunIsVaultRun` | membra-l3/membra_l3/relayer.py:73-174 | the vault's part of every interleaving of vault calls, intent calls and relays is a run of vault calls, so all vault run results apply |
| `Settlement.RunKeepsIntents` | membra-l3/membra_l3/intent_network.py:88-197 | over every such interleaving nonces stay exact and finished intents never change |
| `Settlement.OnlySenderCancels` | membra-l3/membra_l3/intent_network.py:176-191 | over every protocol run an intent becomes cancelled only by a call in its sender's name |
| `Settlement.ProtocolRuns` | membra-l3/membra_l3/relayer.py:73-174 | after every protocol run the vault is solvent, the log replays its reserves, nonces are exact, finished intents are final and the next relay is all-or-nothing |
| `Settlement.RunKeepsFees` | membra-l3/membra_l3/relayer.py:129-160 | when intents are confirmed only by relays, the fee credits recorded on claimed intents are used, distinct, and disjoint between intents |
| `Settlement.RunKeepsEarned` | membra-l3/membra_l3/relayer.py:140-174 | when reimbursements come only from relays, each relayer's profit and gas counters sum to the reimbursements made out to it, and all counters to the reimbursed total |
| `Settlement.RelayedRuns` | membra-l3/membra_l3/relayer.py:73-174 | when only relays confirm, reimburse and consume, both hold from the start and the profit and gas of all relayers is the sum of all used credits |
| `Governance.TallyReplays` | membra-l3/membra_l3/governance.py:77-92 | in every run folding a proposal's vote entries of the log reproduces its tally, nobody votes twice, approved and executed proposals carried 60% of the decided weight with quorum, and rejected ones did not |
| `Governance.VoteCountsOnce` | membra-l3/membra_l3/governance.py:168-198 | an accepted vote adds the voter's power to exactly the chosen side of the tally and the voter may not vote again |
| `Governance.DecisionsFrozen` | membra-l3/membra_l3/governance.py:168-242 | once approved, rejected or executed, the votes never change and the only move left is from approved to executed |
| `Governance.FinalizeRaisesExactly` | membra-l3/membra_l3/governance.py:84-92 | in every run finalizing divides by zero exactly in voting, at or after the deadline, with the quorum met by abstentions alone |
| `Governance.NoEarlyDecision` | membra-l3/membra_l3/governance.py:160-206 | a proposal whose voting opened at t is still in voting after every run in which no finalizing call reads a clock of t + 172800 or later |
| `Governance.FinalizeExactly` | membra-l3/membra_l3/governance.py:200-220 | finalizing does nothing exactly for an unknown id, outside voting or before the deadline; otherwise it raises, or decides by the tally and logs both |
| `Governance.ProposeExactly` | membra-l3/membra_l3/governance.py:119-158 | a proposal is accepted exactly when each required proof is the hash of one of the last 200 entries; it starts as drafted, in review for 259200 seconds, and is logged |
| `Governance.StartExactly` | membra-l3/membra_l3/governance.py:160-166 | voting opens exactly for a proposal in review and ends 172800 seconds later |
| `Governance.VoteExactly` | membra-l3/membra_l3/governance.py:168-198 | a vote is accepted exactly during voting from someone with positive power who has not voted, and is recorded and logged with that power |
| `Governance.ExecuteExactly` | membra-l3/membra_l3/governance.py:222-242 | exactly approved proposals are executed, once, and logged |
| `Governance.TallyIsWeight` | membra-l3/membra_l3/governance.py:77-82 | the three sides of the tally together are the weight of all votes |
| `Governance.JudgeMeans` | membra-l3/membra_l3/governance.py:84-92 | the share test is equivalent to for >= 0.6 (for + against) with quorum, and the division fails exactly for decided weight zero |
| `Governance.GovernanceBoard.CountVotes` | membra-l3/membra_l3/governance.py:77-82 | the loop computes the fold of the ballots |
| `Governance.GovernanceBoard.ProposeNew` | membra-l3/membra_l3/governance.py:119-158 | stores and logs the proposal, or raises when a required proof is not among the latest 200 entries |
| `Governance.GovernanceBoard.OpenVoting` | membra-l3/membra_l3/governance.py:160-166 | moves a proposal in review to voting with its deadline |
| `Governance.GovernanceBoard.AddVote` | membra-l3/membra_l3/governance.py:168-198 | records and logs a first vote with positive weight during voting, and nothing otherwise |
| `Governance.GovernanceBoard.FinalizeVoting` | membra-l3/membra_l3/governance.py:200-220 | approves, rejects, refuses or raises, and logs, as the finalize transition does; refuses exactly for an unknown id, outside voting or before the deadline |
| `Governance.GovernanceBoard.ExecuteProposal` | membra-l3/membra_l3/governance.py:222-242 | executes and logs an approved proposal only |
| `Oracle.FeedRefines` | membra-l3-cpp/include/volatility_oracle.hpp:73-81 | overwriting the slot at the index and advancing it modulo 100 refines appending to the history |
| `Oracle.ScanIsWindow` | membra-l3-cpp/include/volatility_oracle.hpp:162-176 | after any number of feeds, scanning from the index and skipping empty slots yields exactly the last min(n, 100) points in feed order |
| `Oracle.SlotOrderTotals` | membra-l3-cpp/include/volatility_oracle.hpp:143-154 | count and totals in slot order equal those in feed order |
| `Oracle.MeanWithinWindow` | membra-l3-cpp/include/volatility_oracle.hpp:156-160 | the reported mean lies between the smallest and largest price of the window |
| `Oracle.ReportExactly` | membra-l3-cpp/include/volatility_oracle.hpp:137-180 | zeros below 12 points; otherwise mean times weight is the weighted total, and the change is from the oldest to the newest point relative to the oldest |
| `Oracle.WeightExactly` | membra-l3-cpp/include/volatility_oracle.hpp:143-154 | a point counts with its volume, or once if there is none |
| `Oracle.WindowExactly` | membra-l3-cpp/include/volatility_oracle.hpp:162-176 | the window is the last 100 points fed, or all of them |
| `Oracle.VolatilityOracle.FeedPrice` | membra-l3-cpp/include/volatility_oracle.hpp:73-81 | appends the point to the history the buffer refines |
| `Oracle.VolatilityOracle.ComputeTwap` | membra-l3-cpp/include/volatility_oracle.hpp:137-180 | both loops together return the weighted mean of the window and the change from its oldest to its newest price, or zeros below 12 points |
| `PersonalChain.TamperingExactly` | membra_sdk/personal_chain/chain.py:269-279 | replacing an event of an intact chain goes unnoticed if and only if its link is kept and either no hashed field changed or it is the last event |
| `PersonalChain.RunKeeps` | membra_sdk/personal_chain/chain.py:93-136 | after every run of logging, receipts, notary annotations, policy updates and restarts the chain is intact, in sequence order, and the directory holds exactly what is durable of each event, and the policy |
| `PersonalChain.ReloadRestores` | membra_sdk/personal_chain/chain.py:320-350 | reloading at most 10^8 events gives the same chain, policy included, with each event as it was last persisted, and the invariant holds again |
| `PersonalChain.EventRestoredExactly` | membra_sdk/personal_chain/chain.py:176-207 | a restart brings an event back field by field if and only if it has neither receipt nor anchor or carries a notary attestation; the receipt, and the anchor, each survive if and only if absent or attested; every other field always does |
| `PersonalChain.RestartExactly` | membra_sdk/personal_chain/chain.py:320-366 | a restart leaves the whole chain as it was if and only if that holds of every event; a second restart always does |
| `PersonalChain.PolicySurvivesRestarts` | membra_sdk/personal_chain/chain.py:295-366 | in every run the policy in force is all updates merged in order, whatever restarts lie between |
| `PersonalChain.EventIdsDistinct` | membra_sdk/personal_chain/chain.py:119-121 | event ids are distinct within a chain, so the first match of an attestation is the only one |
| `PersonalChain.CaptureExactly` | membra_sdk/personal_chain/chain.py:93-105 | an event is logged exactly when the caller overrides or the setting governing its type is set, and there is a privacy label for it |
| `PersonalChain.NoCaptureWithoutConsent` | membra_sdk/personal_chain/chain.py:281-298 | over every run, restarts included, while a setting is not set, updated to set or overridden, neither chain nor directory holds an event of a type it governs |
| `PersonalChain.PrivateByDefault` | membra_sdk/personal_chain/chain.py:80-87 | a new chain holds no prompts and no uploads until told to capture them; builds it captures from the start, privately |
| `PersonalChain.LoggedExactly` | membra_sdk/personal_chain/chain.py:107-136 | the logged event carries hash and first 200 characters of the data, label, token, place and link, and is the one new file |
| `PersonalChain.EventIdExactly` | membra_sdk/personal_chain/chain.py:120-120 | the event id is user, whole milliseconds and place in the chain |
| `PersonalChain.MarkedExactly` | membra_sdk/personal_chain/chain.py:176-198 | a receipt or an anchor is set on the event just logged, not in its file and not in the hash |
| `PersonalChain.AttestExactly` | membra_sdk/personal_chain/chain.py:200-207 | an attestation is set on the event it names and on its file; an unknown id does nothing |
| `PersonalChain.ListedExactly` | membra_sdk/personal_chain/chain.py:325-325 | exactly the files ending in .json are read |
| `PersonalChain.ReloadVerifiesExactly` | membra_sdk/personal_chain/chain.py:320-350 | the reloaded chain verifies if and only if there are at most 10^8 events |
| `PersonalChain.ReceiptLostOnRestart` | membra_sdk/personal_chain/chain.py:176-186 | a receipt id set by log_stripe_receipt is lost by a restart right after it |
| `FileNames.NamesInOrder` | membra_sdk/personal_chain/chain.py:302-302 | below 10^8 the eight-digit file names sort in sequence order |
| `FileNames.OverflowListsEarlier` | membra_sdk/personal_chain/chain.py:325-325 | the file of event 10^8 is listed before that of its predecessor |
| `FileNames.NamesDistinct` | membra_sdk/personal_chain/chain.py:302-302 | different sequence numbers have different file names |
| `PersonalChain.ChainStore.constructor` | membra_sdk/personal_chain/chain.py:73-91 | opens a directory by its sorted listing, skipping files that are not events, then reads the policy |
| `PersonalChain.ChainStore.LogEvent` | membra_sdk/personal_chain/chain.py:93-136 | computes data hash, preview, consent token and event id, appends, links and persists the event; refuses for lack of consent exactly when not overridden and a setting governing the type is not set; with a default label that is none nothing changes |
| `PersonalChain.ChainStore.LogStripeReceipt` | membra_sdk/personal_chain/chain.py:176-186 | logs, then sets the receipt in memory only |
| `PersonalChain.ChainStore.LogSolanaAnchor` | membra_sdk/personal_chain/chain.py:188-198 | logs, then sets the anchor in memory only |
| `PersonalChain.ChainStore.AddNotaryAttestation` | membra_sdk/personal_chain/chain.py:200-207 | annotates and persists the first event with the id, and answers whether there is one |
| `PersonalChain.ChainStore.VerifyChainIntegrity` | membra_sdk/personal_chain/chain.py:269-279 | answers whether every link matches the hash of the event before it |
| `PersonalChain.ChainStore.UpdateConsentPolicy` | membra_sdk/personal_chain/chain.py:295-298 | merges the given keys into the policy in memory and on disk |
| `Jobs.CastVotesKeeps` | membra_sdk/marketplace/jobs.py:152-171 | voting keeps what each status proves about a job: a job finalizes at the first prefix of three or more votes with two thirds valid |
| `Jobs.VotesFinalizeExactly` | membra_sdk/marketplace/jobs.py:152-171 | a list of votes finalizes a paid job if and only if some prefix of it reaches consensus; otherwise all votes are recorded and the job stays paid |
| `Jobs.CallsMoveExactly` | membra_sdk/marketplace/jobs.py:100-150 | each call takes effect exactly in its own status, moves the job to the next and touches no other job |
| `Jobs.PaidRecord` | membra_sdk/marketplace/jobs.py:84-150 | the whole record of a job that was posted, claimed, delivered, passed, approved and paid |
| `Jobs.VoteExactly` | membra_sdk/marketplace/jobs.py:152-171 | a vote on a paid job is recorded last and finalizes it exactly with at least three votes and three times the valid ones at least twice all |
| `Jobs.OneValidatorFinalizes` | membra_sdk/marketplace/jobs.py:167-171 | votes are counted, not validators: three votes of one validator finalize a job |
| `Jobs.VotesAreValidatorsExactly` | membra_sdk/marketplace/jobs.py:167-171 | there are as many different validators as votes if and only if no validator repeats, and then as many confirming validators as valid votes |
| `Jobs.ConsensusOfValidators` | membra_sdk/marketplace/jobs.py:167-171 | with no repetition the vote rule is the rule of two thirds of at least three validators |
| `Jobs.VoteKeepsNoRepeatExactly` | membra_sdk/marketplace/jobs.py:152-165 | a recorded vote keeps the list free of repetition if and only if its validator is not on it |
| `Jobs.JobBoard.CheckConsensus` | membra_sdk/marketplace/jobs.py:167-171 | answers whether there are at least three votes, two thirds of them valid |
| `Jobs.JobBoard.ValidatorVote` | membra_sdk/marketplace/jobs.py:152-165 | records the vote of a paid job and finalizes it at consensus |
| `Jobs.JobBoard.PostJob` | membra_sdk/marketplace/jobs.py:84-98 | stores a new open job with its whole specification |
| `Jobs.JobBoard.ClaimJob` | membra_sdk/marketplace/jobs.py:100-108 | an open job gets its builder and becomes claimed |
| `Jobs.JobBoard.DeliverArtifact` | membra_sdk/marketplace/jobs.py:110-120 | a claimed or building job gets its artifact and becomes delivered |
| `Jobs.JobBoard.ReportTests` | membra_sdk/marketplace/jobs.py:122-130 | a delivered job records the result and moves on only when it passed |
| `Jobs.JobBoard.BuyerApprove` | membra_sdk/marketplace/jobs.py:132-140 | a job with passing results becomes approved with its time |
| `Jobs.JobBoard.SubmitPaymentReceipt` | membra_sdk/marketplace/jobs.py:142-150 | an approved job records the receipt and becomes paid |
| `Escrow.SharesWithinOneCent` | membra_sdk/marketplace/escrow.py:123-132 | for every amount the five rounded shares differ from the rounded total by at most one cent |
| `Escrow.OneCentIsReached` | membra_sdk/marketplace/escrow.py:123-132 | amounts at which the shares are one cent over and one cent short |
| `Escrow.DepositExactly` | membra_sdk/marketplace/escrow.py:59-77 | a deposit opens one held account with one confirmed payment and touches no other |
| `Escrow.OnlyHeldMoves` | membra_sdk/marketplace/escrow.py:79-121 | release, refund and freeze act exactly on a held account, and a second one does nothing |
| `Escrow.SharesAddUpExactly` | membra_sdk/marketplace/escrow.py:123-132 | for every whole number of cents the shares add up to the total if and only if the cents modulo 20 are 0, 4, 7, 9, 10, 11, 13 or 16 |
| `Escrow.DepositAddsExactly` | membra_sdk/marketplace/escrow.py:59-77 | a deposit raises the held total, and the total in custody, by exactly its amount if and only if the job has no such account or an empty one; otherwise what was there is lost |
| `Escrow.PayoutsTakeHeld` | membra_sdk/marketplace/escrow.py:79-121 | release and refund take exactly the account's held amount out of custody, freezing nothing |
| `Escrow.SecondDepositReplaces` | membra_sdk/marketplace/escrow.py:59-77 | after two deposits for a job only the second amount is held |
| `Escrow.EscrowManager.OpenDeposit` | membra_sdk/marketplace/escrow.py:59-77 | stores a new held account with the one confirmed deposit, its method and times |
| `Escrow.EscrowManager.ReleaseFunds` | membra_sdk/marketplace/escrow.py:79-98 | a held account becomes released with the receipt recorded, and the split is within one cent |
| `Escrow.EscrowManager.RefundBuyer` | membra_sdk/marketplace/escrow.py:100-112 | a held account becomes refunded with the reason recorded |
| `Escrow.EscrowManager.FreezeFunds` | membra_sdk/marketplace/escrow.py:114-121 | a held account becomes frozen |
| `Payments.SettlementTracker.RecordSettlement` | membra_sdk/payments/settlement.py:36-50 | stores a pending settlement with both accounts under the job's key |
| `Payments.SettlementTracker.ConfirmSettlement` | membra_sdk/payments/settlement.py:52-59 | marks a known settlement settled |
| `Payments.ReceiptValidExactly` | membra_sdk/payments/receipts.py:63-78 | a receipt passes exactly with a positive amount, one of four processors and a transaction id |
| `Payments.SettlementLife` | membra_sdk/payments/settlement.py:36-64 | a recorded settlement is pending and not settled; confirming settles it and keeps the rest |
| `ProfitLoop.RunKeeps` | membra_sdk/profit_loop.py:54-209 | every run of the loop keeps the evidence each status stands for, settlement of every paid job, and the shape of every account |
| `ProfitLoop.ReleaseEvidence` | membra_sdk/profit_loop.py:176-209 | in every run a released account carries exactly one release with tests passed, buyer approval and settlement true, for a job finalized at the first vote prefix of three or more with two thirds valid |
| `ProfitLoop.ReleasesAreEvidenced` | membra_sdk/profit_loop.py:186-198 | whenever a reachable state lets a release happen, its receipt has all four flags true |
| `ProfitLoop.NoDoubleRelease` | membra_sdk/profit_loop.py:54-70 | over every run a job sees no more releases than deposits |
| `ProfitLoop.FundsConserved` | membra_sdk/profit_loop.py:54-209 | over every run what was paid in equals what is held or frozen plus what was released, refunded and overwritten by a later deposit |
| `ProfitLoop.NothingLostExactly` | membra_sdk/profit_loop.py:54-70 | with no negative deposit nothing is overwritten, and custody is deposits less releases and refunds, if and only if every deposit finds nothing in custody for its job |
| `ProfitLoop.FullLoopReleasesExactly` | membra_sdk/profit_loop.py:222-263 | the full loop releases the budget if and only if the tests passed and some prefix of the votes reaches consensus; otherwise the budget stays held |
| `ProfitLoop.DeliveredRecord` | membra_sdk/profit_loop.py:48-112 | steps 1 to 4 on a new job leave exactly this job and account |
| `ProfitLoop.SettledRecord` | membra_sdk/profit_loop.py:110-152 | steps 5 and 6 leave the job paid with this receipt and settlement |
| `ProfitLoop.ReleaseExactly` | membra_sdk/profit_loop.py:176-209 | a release happens exactly for a finalized job with a held account and stamps account and receipt with their own times |
| `ProfitLoop.BuildExactly` | membra_sdk/profit_loop.py:72-82 | claiming and delivering in one call works exactly for an open job |
| `ProfitLoop.InvalidReceiptStillPays` | membra_sdk/profit_loop.py:130-152 | settling an approved job pays it and confirms the settlement whatever the receipt; the receipt is marked verified exactly when it passes the checks |
| `ProfitLoop.ReceiptIsFromPayingCall` | membra_sdk/profit_loop.py:114-152 | in every run a job's receipt is that of the one settle_payment call that found it approved and is never replaced |
| `ProfitLoop.ReleasedReceiptExactly` | membra_sdk/profit_loop.py:114-209 | in every run a released job carries a verified receipt if and only if that call passed the receipt checks |
| `ProfitLoop.OneVoteEach` | membra_sdk/profit_loop.py:160-174 | if no validator casts two votes for a job in the whole run, none repeats among its recorded votes |
| `ProfitLoop.ReleaseValidators` | membra_sdk/profit_loop.py:160-209 | behind every release votes are as many as validators if and only if none repeats, and then at least three different validators voted and two thirds of them confirmed |
| `ProfitLoop.MembraProfitLoop.DepositFunds` | membra_sdk/profit_loop.py:54-70 | opens the escrow of a known job |
| `ProfitLoop.MembraProfitLoop.Build` | membra_sdk/profit_loop.py:72-82 | claims an open job and delivers its artifact |
| `ProfitLoop.MembraProfitLoop.Settle` | membra_sdk/profit_loop.py:114-158 | records and confirms the settlement and submits the receipt with its check result |
| `ProfitLoop.MembraProfitLoop.CollectVotes` | membra_sdk/profit_loop.py:160-174 | casts the votes in order |
| `ProfitLoop.MembraProfitLoop.Release` | membra_sdk/profit_loop.py:176-209 | releases exactly when the job is finalized and the escrow held, with the evidence read off job and settlement, and returns the split of the held amount |

## Left out
- VaultObject.GasVaultLedger.GetUserCredits: returns credit values where the source returns the live credit objects, so later status changes are not visible through the result.
- IntentNetwork.IntentBoard.CreateIntent: returns the intent as a value; a caller holding the source's object would see its later status changes.
- Seigniorage.SupplyStaysBounded: the quadratic bound is stated while the 64-bit counters have not wrapped, because the policy reads the wrapped counters afterwards; the linear bound of 250 times capacity has no such condition.
- Seigniorage.PolicyNeverStarves: the adjustment floor and the positive mint are stated while the 64-bit counters have not wrapped, for the same reason.
- ProofBook.ProofLog.Append: the entry's data is one of the payloads of the modelled modules or a text, instead of an arbitrary dictionary.
- The `since` filter of the log query, `export` and `to_json`: no caller in the modelled code uses them.
- `find_claimable_intents` and `relay_all_profitable`: a filter and a loop over single relays, each of which is covered.
- The route branch of the relay, which compares a symbol with itself and is never taken; the identity score that yields the transfer limit is a parameter.
- `set_voting_power` as an object method, statistics and query methods: single reads and writes of fields whose values are modelled.
- The JSON text of an event's data and the settings a policy may hold beyond flags, labels and texts: the chain gets the text that is hashed.
- `export_public_proofs`, `export_chain_archive` and the summary of the personal chain: filters over the events.
- The oracle's `assess`, gas feed and locks: branch classification over the two reported numbers.
- Epoch ledgers of the seigniorage manager, which nothing writes.
- Token appraisal, provenance attestations and market-cap formula; microtasks, reward vault, futures, staking, benchmarks, IPFS, ZK prover mocks.
- JSON persistence of the job board and the escrow manager; only the in-memory state is modelled.
- Direct edits of a proposal's or settlement's fields by callers, as the demonstration script does with the voting deadline.
- Stripe, Solana, web servers, command lines, LLM and brain services, generators.
