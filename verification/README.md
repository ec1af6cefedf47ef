# Verified model of the gateway's trust path

This project models, in Dafny, the part of the agent authorization gateway that others have to
trust: how an authorization call becomes a signed, hash-chained receipt and a single-use token, and
how an auditor who holds nothing but the packet can check it. It states what each piece promises and
proves it for every input, every run and every reachable state.

`dafny verify dfyconfig.toml` checks everything.

## How it is laid out

The modules build on each other, bottom up.

- Text and hashing. `Json`, `KeyOrder` (UTF-16 key order), `Canonical` (the printer), and an
  independent reference, `CanonicalParser`, with the proof that parsing undoes printing
  (`CanonicalRoundTrip`, `CanonicalTheorems`). `Sha256` is a parameter, any function from bytes to 32
  bytes: no injectivity is assumed anywhere. Where a theorem needs two hashed strings to be the same,
  it names a function that computes a collision whenever they are not. `Digests` holds the hashes
  that bind an intent or a policy.
- Merkle trees. `MerkleTree` (levels, paths, folds), `Merkle` (the loops), `MerkleRfc6962` (the
  recursive definitions of section 2.1 of RFC 6962), `InclusionCheck` (the auditor's walk: complete
  and sound).
- The chain. `Receipts` (the signer), `Verify` (the two verifiers), `ChainTheorems` (what passing
  means, tamper evidence, agreement), `SignerTheorems` (signed chains against the verifier),
  `AuditPacket`, `PacketVerifier` and `EndToEnd`.
- Clocks and caches. `SlidingWindow`, `Policy`, `Simulation`, `ExpiringMap`, `ProofReplay`,
  `TokenReplay`, `Challenges`, `Agents`, `Resources`, `ArtifactLog`.
- Concurrency. `EvidenceBuffer`, first as an object used by one task, then as a machine of tasks
  interleaved at their awaits.
- The whole. `Gateway` is `authorize` with the objects it works through; `GatewayReplies` says what one
  reply guarantees of the request, the envelope and the token; `GatewayRuns` shows that a run of the
  gateway is exactly one run of each component; `GatewayTheorems` and `GatewayEndToEnd`
  carry the component theorems over to tokens and packets.

Ed25519 and Python's `int(str)` are the `Platform` parameter, whose only laws are that verification
accepts what signing produced, that `int(str(n))` is `n`, and that `int("")` raises. The JWT library is a
parameter with two laws: it rejects tokens whose `iat`, cut to whole seconds, lies in the future, and a
token always carries the same claims. `str.lower` and the evidence store are parameters without laws. Every reading of a clock,
every uuid and every nonce is an argument; functions that read the clock several times are given
several readings. Strings are sequences of code points, lone surrogates included, because Python has
them and the code fails on them late.

## What turned out not to hold

Each of these is proved of the code as it is, with the condition under which it goes right and an input
on which it goes wrong.

- `sign_decision` takes the next number before anything can raise. A delegation context that cannot
  be canonicalized (a float is enough) uses a number up, and once a later call succeeds `verify_chain`
  reports a gap for good. The chain of a run passes if and only if no failing call comes before a
  succeeding one (`SignerTheorems.SignedChainPasses`, `FailedCallBreaksChain`; for whole gateway runs
  `GatewayTheorems.GatewayChainPasses`). The `/authorize` endpoint, the only caller that passes a
  context, has no place for a float in it, so such contexts come from other Python code only: runs fed by
  the endpoint with encodable texts always pass (`GatewayEndToEnd.EndpointChainPasses`,
  `EndpointPacketPasses`).
- The key comparison joins a high surrogate followed by a low one. Keys with such a pair of lone
  surrogates compare as equal to another key; all others are totally ordered
  (`KeyOrder.SplitPairIsMerged`, `KeyOrder.CompareIsTotalOrder`).
- The two chain verifiers do not accept the same lists. They agree exactly on lists that carry
  numbers, links and hashes throughout and have the genesis link on the first receipt only
  (`ChainTheorems.VerifiersAgree`). A first receipt listed twice passes one and fails the other
  (`SignerTheorems.CopiedReceiptPartsVerifiers`).
- Rate-limit counters are shared between agents when one rule id is another behind a colon
  (`Policy.ColonSuffixMixesAgents`): an agent's first call is then denied because another agent made one
  (`Policy.OtherAgentUsesUpLimit`). The other agent's id holds a colon; `/authorize` does not admit such ids,
  and agents without colons are never mixed (`Policy.ColonFreeAgentsApart`).
- A proof is single-use when its `iat` is a whole second, as the agents' own helper makes it. For every
  `iat` with a fraction there is a run in which the proof is accepted twice
  (`ProofReplay.ProofSingleUse`, `FractionalProofTwice`).
- A token with `exp` gets through twice if, and only if, one request reads the clock before `exp + 5 s`
  for decoding and after it for cleaning (`TokenReplay.SecondUseIffStraddles`). A token without `exp` gets
  through again if and only if more than 65 seconds have passed since its entry was made
  (`TokenReplay.SecondNoExpUseIff`); `issue_token` always sets `exp`, so such a token is not the gateway's own.
- An agent-filtered packet passes the offline verifier when the agent's receipts are neighbours in the
  chain, and otherwise fails unless two bodies collide (`EndToEnd.FilteredPacketPassesIff`,
  `AlternatingAgentsFail`). A stored key with the kid "gateway" is missing from packets
  (`EndToEnd.PublicKeysResolve`).
- One hash in the artifact log that is not hexadecimal keeps every inclusion proof out of the packet,
  which passes all the same (`AuditPacket.ProofsExactlyForLog`, `EndToEnd.RangePacketPasses`).
- A registration challenge can be consumed by another agent than the one it was issued to: the key joins
  tenant, agent and nonce with colons, and the endpoints check lengths only. It is the same agent if and
  only if the nonce of the redemption holds no colon (`Challenges.ConsumedAsIssued`,
  `AnotherAgentConsumes`). The REPLAY answer for challenges is never given
  (`Challenges.ReplayNeverAnswered`).
- A full challenge cache stays full until somebody tries to redeem, because capacity is checked before
  the sweep; ten thousand requests from different addresses fill it (`Challenges.FullStaysFull`,
  `FullIsReached`).
- A simulated policy is replayed dry, so no positive rate limit ever denies in a simulation
  (`Simulation.SimulationIgnoresRates`).
- Resource ids may end in a newline, which `$` lets through (`Resources.NewlineSlipsThrough`).
- An agent can be registered and yet not be found by its kid, when another agent with the same key
  was registered, replaced or revoked since (`Agents.KidLookupExact`, `SharedKeyLosesAgent`).
- The drain loop's batch exceeds the maximum when that is 1 (`EvidenceBuffer.DrainBatchBound`), and a
  flush beside the drain loop can overtake it (`EvidenceBuffer.FlushCanOvertake`). What `flush` returns as
  persisted is the number of items tried, failures included (`EvidenceBuffer.Buffer.Flush`).
- `get_all_hashes_since` stops at 500 entries (`ArtifactLog.AllHashesIff`).

Where the format description of audit packets under `docs/` and the code disagree (leaf and node tags, a
check that approvals and denials add up, skipped links), the model follows the code.

## Model

| member | source | states |
|---|---|---|
| KeyOrder.ToUtf16Units | gateway/canonical.py:34-44 | the loop yields the UTF-16 code units of a text, as UnitsAreUtf16 says |
| KeyOrder.UnitsInjective | gateway/canonical.py:34-44 | the surrogate arithmetic can be undone on every text without a split pair of lone surrogates |
| KeyOrder.UnitsAreUtf16 | gateway/canonical.py:34-44 | a decoder written after section 2.2 of RFC 2781 gives back every text without a split pair |
| KeyOrder.CompareKeysJcs | gateway/canonical.py:18-31 | -1 when the first key, as an array of units, parts from the second by a smaller unit or by ending first, 1 the other way round, else 0 |
| KeyOrder.CompareIsUnitOrder | gateway/canonical.py:18-31 | a negative result means exactly that the first key precedes the second in the order of section 3.2.3 of RFC 8785 |
| KeyOrder.CompareIsTotalOrder | gateway/canonical.py:18-31 | the key comparison is a strict total order, and 0 means equal keys (section 3.2.3 of RFC 8785) |
| KeyOrder.SplitPairIsMerged | gateway/canonical.py:34-44 | the exception is exact: every key with a split pair compares as equal to another key |
| Canonical.SerializeString | gateway/canonical.py:74-97 | the appending loop builds the quoted and escaped literal that the parser reads back |
| Canonical.EscapesAreRfc8785 | gateway/canonical.py:77-95 | the two-character escapes, the six-character ones in lower case, and everything else as it is (section 3.2.2.2 of RFC 8785) |
| CanonicalTheorems.SortMembersSorted | gateway/canonical.py:67-68 | the sort leaves no member before one that compares smaller |
| CanonicalTheorems.PrintedInUnitOrder | gateway/canonical.py:67-68 | the members of a dict are printed, each once, in the order of the UTF-16 units of their keys |
| CanonicalTheorems.TextInUnitOrder | gateway/canonical.py:52-71 | a reader of the canonical text meets the keys of every object, at any depth, in that order |
| CanonicalTheorems.SameKeysSortAlike | gateway/canonical.py:67-68 | the printed order of keys does not depend on insertion order |
| CanonicalRoundTrip.ParseSerialize | gateway/canonical.py:52-97 | a parser of the output grammar applied to the text of any nested value gives that value back, members in printed order |
| CanonicalTheorems.SerializeInjective | gateway/canonical.py:52-71 | values that print the same are equal as JSON |
| CanonicalTheorems.SamePrintsAlike | gateway/canonical.py:52-71 | values that are equal as JSON print the same, at every depth |
| CanonicalTheorems.CanonicalizeExact | gateway/canonical.py:47-49 | canonical bytes are equal if and only if the values are equal as JSON |
| CanonicalTheorems.CanonicalizeOkIff | gateway/canonical.py:47-71 | canonicalize succeeds exactly on values without floats, foreign objects and lone surrogates |
| CanonicalTheorems.ErrorNamesCause | gateway/canonical.py:47-71 | an error names a float, a foreign object or a surrogate that is in the value |
| Utf8.DecodeEncode | gateway/canonical.py:49 | decoding the bytes by section 3 of RFC 3629 gives back the text |
| Numerals.ToHexDigits | gateway/merkle.py:95 | each byte is written as its two lower-case digits, high half first |
| Numerals.FromHexReads | gateway/merkle.py:29-31 | what fromhex reads, skips and rejects |
| Numerals.DecimalIsPlain | gateway/canonical.py:59 | integers are printed without leading zeros, with a minus sign only when negative |
| Sha256.RemovePrefixExactly | gateway/receipts.py:155-157 | the prefix is removed once, and only when it is there |
| MerkleTree.RootIsTreeHash | gateway/merkle.py:49-70 | the levels the loop builds hash one binary tree whose leaves are the list, in order |
| Merkle.NextLevel | gateway/merkle.py:83-93 | the inner loop pairs neighbours and promotes the odd node |
| Merkle.BuildTree | gateway/merkle.py:49-70 | all levels up to the root; an empty list raises |
| Merkle.ComputeBatchRoot | gateway/merkle.py:73-95 | the receipt root with its own tags, keeping one level at a time; empty and non-hex input raise |
| Merkle.ComputeUnifiedRoot | gateway/merkle.py:98-110 | the artifact root with its own tags |
| Merkle.ComputeInclusionProof | gateway/merkle.py:113-150 | None when the target is absent, otherwise index, size, root and the sibling path of its first occurrence |
| Merkle.ProofStates | gateway/merkle.py:120-150 | a proof states the target, its first place, the length of the list and its unified root |
| Merkle.RootRaisesWhen | gateway/merkle.py:79-95 | a root raises exactly for an empty list or a hash that is not hexadecimal |
| Merkle.ProofPath | gateway/merkle.py:131-142 | the index-halving loop emits the siblings bottom up and skips promoted nodes |
| MerkleRfc6962.LevelsComputeMth | gateway/merkle.py:83-93 | pairing level by level with promotion equals the recursive split at the largest power of two (section 2.1 of RFC 6962) |
| MerkleRfc6962.PathIsAuditPath | gateway/merkle.py:131-142 | the sibling path is the audit path of section 2.1.1 |
| MerkleRfc6962.CodeAgreesWithRfc6962 | gateway/merkle.py:98-150 | root and proof as returned are the tree hash and the audit path |
| MerkleRfc6962.RootsAreTaggedMth | gateway/merkle.py:20-46 | both roots, over the data, with their tags, zero byte and order of children spelled out |
| InclusionCheck.WalkToRoot | gateway/audit_packet_verifier.py:327-338 | the auditor's loop computes the fold of the path, or raises on bad hex |
| InclusionCheck.InclusionComplete | gateway/audit_packet_verifier.py:319-345 | every proof the gateway computes, duplicates included, folds to the unified root in at most ceil(log2 n) steps |
| InclusionCheck.InclusionSound | gateway/audit_packet_verifier.py:327-339 | a walk of any length over siblings of any length that reaches the root of a list proves the target is in the list, or a SHA-256 collision is computed |
| InclusionCheck.RootBindsList | gateway/merkle.py:39-70 | lists of any lengths with equal roots are equal as byte strings, or a collision is computed |
| InclusionCheck.PathIsShort | gateway/merkle.py:131-142 | a path of up to 2^c leaves has at most c steps |
| Receipts.ReceiptChain.SignDecision | gateway/receipts.py:105-150 | the new number, link, hash and signature; a call that raises keeps the number it took |
| SignerTheorems.SignedBodyStates | gateway/receipts.py:48-69 | each of the nine keys of the signed body states the number, the link or its own argument, and each optional key is there exactly when given |
| SignerTheorems.SignedSealsBody | gateway/receipts.py:135-148 | the envelope carries the hash of that body and a signature over it, with algorithm and kid |
| SignerTheorems.GenesisIsZeroHash | gateway/receipts.py:24 | the first link reads like the hash text of 32 zero bytes |
| GatewayEndToEnd.BareHashesDecode | gateway/receipts.py:155-157 | the hashes handed to the Merkle tree decode to the SHA-256 digests of the canonical bodies, one for one and in order |
| Verify.VerifyReceipt | gateway/verify.py:35-159 | the verdict and error codes on one envelope, and which malformed envelopes make it raise |
| Verify.CheckPredecessor | gateway/verify.py:116-157 | the bounded check: genesis, or the stated hash of the receipt numbered one less |
| ChainTheorems.IntegrityExact | gateway/verify.py:35-114 | integrity is PASS exactly when key, algorithm, hash and signature are right, and FAIL otherwise |
| ChainTheorems.ErrorsExact | gateway/verify.py:50-114 | which error is reported for which fault, early ones alone |
| ChainTheorems.PredecessorDecides | gateway/verify.py:116-157 | against a chain the first receipt numbered one less decides PASS or FAIL |
| ChainTheorems.OtherwiseInconclusive | gateway/verify.py:116-157 | genesis passes; without a chain, a number or a predecessor the check is inconclusive, with its error |
| Verify.VerifyChain | gateway/verify.py:162-228 | the first failing link decides; the verdict on the whole list, and when it raises |
| ChainTheorems.ChainPassesIff | gateway/verify.py:185-228 | verify_chain passes exactly the nonempty lists numbered from 1 whose every link, hash and signature holds |
| ChainTheorems.ChainPassesExactly | gateway/verify.py:185-228 | a chain passes exactly when every receipt is genuine under its key and states its number and link |
| ChainTheorems.FirstBadLinkDecides | gateway/verify.py:188-226 | otherwise the first bad receipt decides between its own errors, a gap and a break |
| ChainTheorems.TamperEvidence | gateway/verify.py:185-228 | two passing lists with the same last hash have the same length and equal bodies throughout, or a collision is computed |
| ChainTheorems.LinkBinds | gateway/receipts.py:135-148 | two valid receipts with one hash have equal digests, and equal canonical bytes mean equal bodies, numbers and predecessors |
| ChainTheorems.MemberPassesIff | gateway/verify.py:116-157 | what the single-receipt verdict of a member says about the chain |
| ChainTheorems.VerifiersAgree | gateway/verify.py:116-228 | verify_chain passes if and only if verify_receipt passes every member of a numbered list with genesis first |
| SignerTheorems.CopiedReceiptPartsVerifiers | gateway/verify.py:116-228 | an honest first receipt listed twice: verify_receipt passes both members, verify_chain does not pass the list |
| SignerTheorems.SignedOkIff | gateway/receipts.py:105-150 | which calls of sign_decision succeed, wherever in the chain |
| SignerTheorems.ResumeInStep | gateway/api.py:250-259 | startup picks a passing stored chain up where it ends |
| EndToEnd.SignedDicts | gateway/receipts.py:48-69 | the bodies of signed receipts have each key once, at every depth, so tamper evidence applies to them |
| SignerTheorems.SignedChainPasses | gateway/receipts.py:105-150 | stored and new receipts together pass verify_chain if and only if no failed call came before a successful one, across restarts and keys |
| SignerTheorems.FailedCallBreaksChain | gateway/receipts.py:116-150 | three calls, the middle one with a float, leave two receipts that verify_chain does not pass |
| AuditPacket.GetAuditPacket | gateway/api.py:2231-2435 | the packet: selected receipts, proofs, keys, counts and the inline chain check |
| AuditPacket.CollectProofs | gateway/api.py:2323-2350 | when all log hashes are hexadecimal, one proof for exactly each receipt hash that is in the log; otherwise none |
| AuditPacket.ProofsExactlyForLog | gateway/api.py:2325-2350 | the same of the loop's specification, for every log and every list of receipts |
| AuditPacket.ProofsForPlaced | gateway/api.py:2334-2347 | every proof states the first place of its receipt in the log |
| AuditPacket.CountIsNumberOf | gateway/api.py:2383-2391 | the counts are the numbers of receipts whose body states the decision |
| AuditPacket.SortBySeqSorts | gateway/audit_packet_verifier.py:285-288 | sorting puts the receipts in the order of their numbers and loses none |
| EndToEnd.SelectedExactly | gateway/api.py:2255-2271 | a packet holds exactly the receipts within both bounds and of the agent, each once, in order |
| EndToEnd.BuiltCarries | gateway/api.py:2408-2435 | a packet carries the selected receipts, the anchors given, its keys, and their counts |
| AuditPacket.CheckLinksInline | gateway/api.py:2394-2406 | chain_integrity is PASS exactly when no stated link between sorted neighbours is broken |
| PacketVerifier.VerifyReceiptSignatures | gateway/audit_packet_verifier.py:230-275 | the counters after recomputing every hash and checking every signature |
| PacketVerifier.VerifyChainContinuity | gateway/audit_packet_verifier.py:279-315 | the counters after checking the sorted receipts' links, genesis and missing links skipped |
| PacketVerifier.VerifyInclusionProofs | gateway/audit_packet_verifier.py:319-345 | the counters after walking every proof to its stated root |
| PacketVerifier.VerifyMetadata | gateway/audit_packet_verifier.py:406-442 | the flag falls exactly when a stated count is wrong |
| PacketVerifier.VerifyAuditPacket | gateway/audit_packet_verifier.py:452-487 | the report of all steps without on-chain checks |
| PacketVerifier.PassedIff | gateway/audit_packet_verifier.py:202-211 | a report passes exactly when every hash, signature, stated link, proof and count holds; then everything was counted |
| PacketVerifier.PassedExactly | gateway/audit_packet_verifier.py:202-345 | a packet passes exactly when each stated hash is of the canonical body, the first key of its kid checks the signature, stated links match, proofs reach their roots and the counts are right |
| PacketVerifier.BadSignatureFails | gateway/audit_packet_verifier.py:265-275 | a receipt whose key does not check its signature is counted and makes the packet fail |
| EndToEnd.PacketPassesIffLinked | gateway/audit_packet_verifier.py:202-211 | from a sound store, whatever the query, only continuity can fail, and it fails exactly on a broken link |
| EndToEnd.RangePacketPasses | gateway/api.py:2250-2428 | the packet of every range of numbers of a passing chain passes the offline verifier, all receipts and proofs verified, with a proof for exactly the receipts in a well-formed log |
| EndToEnd.FilteredPacketPassesIff | gateway/api.py:2250-2271 | whatever the filters, the packet passes when the selected receipts are neighbours, and otherwise fails or two bodies collide |
| EndToEnd.AlternatingAgentsFail | gateway/api.py:2262-2271 | three honest receipts of agents x, y, x: the packet of x fails, or the first two bodies collide |
| EndToEnd.InlineCheckAgrees | gateway/api.py:2394-2406 | the builder's chain_integrity and the auditor's continuity step agree on every store |
| EndToEnd.PublicKeysResolve | gateway/api.py:2352-2366 | which key the auditor finds for each kid in a packet |
| EndToEnd.HonestRunPacketPasses | gateway/audit_packet_verifier.py:202-211 | for every signing run from genesis without a gap, every range packet passes |
| SlidingWindow.PrunedAnswersAsFull | gateway/policy.py:121-140 | the pruned list answers every question as the full history would |
| SlidingWindow.WindowBound | gateway/policy.py:121-140 | no interval (t - window, t] holds more than the maximum of counted uses |
| SlidingWindow.DryUsesLeaveNoTrace | gateway/policy.py:137-138 | deleting dry uses changes no history |
| Policy.PolicyEngine.Evaluate | gateway/policy.py:68-98 | decision, ordered reasons and new counters; every rule is looked at even after one has denied |
| Policy.PolicyEngine.CheckRateLimit | gateway/policy.py:121-140 | the answer and the pruned and extended counter |
| Policy.AnswerIsOffences | gateway/policy.py:78-98 | whatever the counters, the reasons are those of the offended rules in order, and approve means exactly that none is offended |
| Policy.DeniedResourceIsDenied | gateway/policy.py:107-114 | a denied text anywhere in the resource, case aside, denies the call with that rule's reason |
| Policy.ResourceNotAllowedIsDenied | gateway/policy.py:116-119 | so does a list of allowed texts none of which is in the resource |
| Policy.ActionNotAllowedIsDenied | gateway/policy.py:100-105 | and a list of allowed actions without the action |
| Policy.LimiterExact | gateway/policy.py:121-140 | a call passes a limit exactly when fewer than the maximum were let pass in the window that ends now, with the defaults 100 and 60 |
| Policy.EngineRefinesFullHistory | gateway/policy.py:68-140 | after any run the engine answers, decision and reasons, as a reference that never prunes |
| Policy.ApprovedIffAllRulesPass | gateway/policy.py:78-98 | approve if and only if all rules pass, limits judged by the agent's whole history; otherwise deny |
| Policy.EnginePassesAreHistory | gateway/policy.py:121-140 | the real calls the engine's limiter let pass are exactly those the never-pruned reference counts |
| Policy.RateLimitHolds | gateway/policy.py:121-140 | on every run on a monotone clock, with unambiguous rule ids, no window holds more than max_actions real calls of one agent that the engine let pass a rule |
| Policy.DryRunsChangeNothing | gateway/policy.py:74-98 | deleting all dry-run calls leaves every answer unchanged |
| Policy.KeyOfInjective | gateway/policy.py:125 | counter keys are unambiguous unless a rule id is another behind a colon |
| Policy.ColonSuffixMixesAgents | gateway/policy.py:125 | the condition is needed: such ids make every agent share a counter with another |
| Policy.OtherAgentUsesUpLimit | gateway/policy.py:121-140 | a run in which the first call of an agent is denied by a limit another agent used up |
| Policy.ColonFreeAgentsApart | gateway/policy.py:125 | agents without colons are never mixed, whatever the rule ids |
| Policy.ColonFreeIsPlain | gateway/policy.py:125 | distinct colon-free ids meet the condition |
| Simulation.SimulatePolicy | gateway/api.py:970-1038 | the first 100 flips and whether there are more, change counts, agent sets, and the approval rates before and after, the latter by final decisions |
| Simulation.FlipsExactly | gateway/api.py:979-999 | the flips are exactly the replayable records that the candidate decides otherwise |
| Simulation.ReplayedAndShown | gateway/api.py:968-1028 | the last records are replayed, as many as asked for; the first hundred flips are shown |
| Simulation.RateIsShare | gateway/api.py:1032-1033 | a rate is the share of approvals in percent, and none for no records |
| Simulation.SimulationIgnoresRates | gateway/api.py:985-1000 | a simulated answer is independent of clock and order and judges only allowlists, scopes and zero limits |
| Simulation.SimulatedApprovalsCount | gateway/api.py:1015-1020 | approvals minus denied plus approved flips are the final approvals, short by exactly those from odd original decisions |
| Simulation.AgentsPartitioned | gateway/api.py:1000-1013 | every replayed agent is listed exactly once, as affected when any of its decisions flips |
| ProofReplay.ProofVerifier.VerifyAgentProof | gateway/identity.py:443-509 | the first failing check, and the cache after it |
| ProofReplay.AcceptedIff | gateway/identity.py:456-509 | a proof is accepted exactly when it is the agent's own under its registered key, at most 30 seconds old, for this action, resource and digest, and unused |
| ProofReplay.RefusedBecause | gateway/identity.py:456-502 | which refusal is given for which fault, the first fault deciding |
| ProofReplay.JtiReuseIsLater | gateway/identity.py:478-507 | a jti is accepted again only in a proof issued after the first was stored |
| ProofReplay.ProofSingleUse | gateway/identity.py:478-507 | no proof issued at a whole second is accepted twice on any run with a clock that never goes back |
| ProofReplay.FractionalProofTwice | gateway/identity.py:478-507 | for every iat with a fraction, a run with a lawful library that accepts the proof twice |
| ExpiringMap.DeleteExpired | gateway/identity.py:504-507 | the deletion loop leaves exactly the entries that have not expired |
| TokenReplay.TokenVerifier.CleanJtiCache | gateway/middleware.py:46-51 | the sweep keeps exactly the entries not before now |
| TokenReplay.TokenVerifier.Verify | gateway/middleware.py:83-147 | the answer over all keys, and the cache: a token with the wrong action is used up too |
| TokenReplay.OpenedAnswer | gateway/middleware.py:99-147 | a token that a key opens is let in exactly when unexpired, unseen, for the action, and for an overlapping resource; otherwise the first fault is the answer |
| TokenReplay.UnopenedAnswer | gateway/middleware.py:91-124 | a token that no key opens is refused and uses nothing up |
| TokenReplay.ReuseNeedsEviction | gateway/middleware.py:127-135 | a jti gets through again only after a cleaning later than its entry's time |
| TokenReplay.TokenSingleUse | gateway/middleware.py:105-135 | a token with jti and exp gets through at most once, unless one request's readings straddle exp plus skew |
| TokenReplay.SecondUseIffStraddles | gateway/middleware.py:105-135 | the exception is exact: the next use gets through if and only if its readings straddle |
| TokenReplay.NoExpReuse | gateway/middleware.py:133 | over every run a token without exp gets through again only 65 seconds after its entry was made |
| TokenReplay.SecondNoExpUseIff | gateway/middleware.py:127-135 | and the next use gets through if and only if its cleaning runs later than that |
| Agents.AgentRegistry.RegisterAgent | gateway/identity.py:104-118 | replace semantics over both indexes |
| Agents.AgentRegistry.RevokeAgent | gateway/identity.py:120-125 | both indexes after a revocation; an unknown id raises |
| Agents.RegisteredExactly | gateway/identity.py:104-128 | after a run exactly those ids are registered whose last call is a registration, with what it gave |
| Agents.KidIndexSound | gateway/identity.py:104-131 | get_by_kid only ever returns a registered agent with that kid |
| Agents.KidLookupExact | gateway/identity.py:104-131 | a registered agent is found by kid if and only if no later call touched that kid through another agent |
| Agents.SharedKeyLosesAgent | gateway/identity.py:104-125 | a run of three calls after which a registered agent is not found by its kid |
| Challenges.RegistrationChallengeCache.CheckRateLimit | gateway/identity.py:283-293 | the sliding window per address |
| Challenges.RegistrationChallengeCache.CollectGarbage | gateway/identity.py:331-335 | exactly the expired challenges go |
| Challenges.RegistrationChallengeCache.RegisterChallenge | gateway/api.py:1164-1185 | rate limit, then capacity, then issue, with the state after each outcome |
| Challenges.RegistrationChallengeCache.ConsumeChallenge | gateway/identity.py:315-329 | the answer, and that a consumed challenge is removed |
| Challenges.RedeemAnswer | gateway/identity.py:315-335 | what a redemption is answered, the first fault deciding |
| Challenges.IssuedIsRedeemable | gateway/identity.py:299-329 | an issued challenge is consumed by its agent until its time runs out |
| Challenges.AskAnswer | gateway/api.py:1172-1185 | a request is refused above ten admitted in the last 60 seconds, then at 10000 stored challenges, and answered otherwise |
| Challenges.ChallengeConsumedOnce | gateway/identity.py:315-329 | no challenge is consumed twice on any run with fresh ids |
| Challenges.ConsumedAsIssued | gateway/identity.py:280-329 | within one tenant, a redemption that consumes is in time and names the challenge's id, and it comes from the agent it was issued to if and only if its nonce holds no colon |
| Challenges.AnotherAgentConsumes | gateway/identity.py:280-281 | a challenge issued to "a:b" is consumed by "a" with "b:" before the nonce |
| Challenges.ReplayNeverAnswered | gateway/identity.py:320-328 | no run ever answers REPLAY |
| Challenges.AddressLimited | gateway/identity.py:283-293 | at most 10 admitted requests per address in any 60 seconds, judged as by the full history |
| Challenges.FullStaysFull | gateway/api.py:1172-1185 | once full, the cache refuses every request, however late, until a redemption is tried |
| Challenges.FullIsReached | gateway/api.py:1172-1185 | ten thousand requests from different addresses fill the cache, and then no request succeeds |
| Resources.ResourceRegistry.CachePut | gateway/resources.py:70-74 | the entry moves to the end and the oldest beyond 1000 go |
| Resources.ResourceRegistry.Register | gateway/resources.py:79-137 | validation errors, conflict, or the new document with the bumped version |
| Resources.ResourceRegistry.Revoke | gateway/resources.py:139-166 | the revoked document, or an error when not active |
| Resources.ResourceRegistry.UpdateMetadata | gateway/resources.py:247-297 | the merged document with version plus one, or an error and no change |
| Resources.ResourceRegistry.IsRegisteredAndActive | gateway/resources.py:184-205 | the answer from a fresh cache entry or the backing map |
| Resources.RefusedWhen | gateway/resources.py:90-130 | which call is refused for which fault |
| Resources.RegisteredDocument | gateway/resources.py:94-133 | every field of the document a registration writes |
| Resources.RevokedDocument | gateway/resources.py:156-162 | a revocation changes status, time and revoker only |
| Resources.UpdatedDocument | gateway/resources.py:274-292 | an update replaces the fields given and keeps all others |
| Resources.OthersUntouched | gateway/resources.py:123-162 | a call touches its own resource only, and nothing when refused |
| Resources.ValidIdExactly | gateway/resources.py:22-34 | the ids the pattern admits, and the newline behind them |
| Resources.PutKeepsNewest | gateway/resources.py:70-74 | the newest thousand entries stay, in order |
| Resources.AnswerIsStatus | gateway/resources.py:184-205 | after any run, eviction and clock reading, the answer is the stored status, that of the last accepted registration or revocation |
| Resources.RunCoherent | gateway/resources.py:70-77 | every cache entry of any age tells the stored status; ids are distinct; at most 1000 entries |
| Resources.VersionCountsWrites | gateway/resources.py:123-135 | a version is the number of accepted registrations and updates |
| Resources.VersionsNeverDecrease | gateway/resources.py:131-133 | versions never go down and resources are never forgotten |
| Resources.RegisterAcceptedIff | gateway/resources.py:127-130 | a well-formed registration is accepted exactly when the resource is not active |
| Resources.NewlineSlipsThrough | gateway/resources.py:22-34 | an id with a newline behind it passes validation though it does not match the stated alphabet |
| ArtifactLog.Log.Append | gateway/artifact_log.py:98-127 | the entry with the next number, at the end |
| ArtifactLog.Log.GetEntriesSince | gateway/artifact_log.py:129-143 | the later entries up to the limit |
| ArtifactLog.Log.GetAllHashesSince | gateway/artifact_log.py:145-151 | the hashes of at most 500 later entries |
| ArtifactLog.PagesCoverLog | gateway/artifact_log.py:129-143 | paging by last number with any limit reads every later entry once, in order |
| ArtifactLog.AllHashesIff | gateway/artifact_log.py:145-151 | all hashes are returned exactly when at most 500 entries are later |
| EvidenceBuffer.Buffer.CollectBatch | gateway/evidence_buffer.py:112-122 | the longest prefix of the queue within the limit |
| EvidenceBuffer.Buffer.PersistBatch | gateway/evidence_buffer.py:124-139 | every item is tried once, in order, and counted by its outcome |
| EvidenceBuffer.TakenIsMost | gateway/evidence_buffer.py:112-122 | a batch is as long as the queue, the batch size and the request allow |
| EvidenceBuffer.TakesMove | gateway/evidence_buffer.py:102-154 | how many items the drain loop, its timeout and a flush take, for every batch size |
| EvidenceBuffer.SuccessesAre | gateway/evidence_buffer.py:126-137 | as many items count as persisted as the store accepts or are of an unknown kind |
| EvidenceBuffer.WriteCounts | gateway/evidence_buffer.py:127-137 | a write that ends well, or of an unknown kind, counts as persisted, any other as an error |
| EvidenceBuffer.Buffer.Flush | gateway/evidence_buffer.py:102-110 | undisturbed it ends with the queue empty, everything tried in order |
| EvidenceBuffer.FlushProgress | gateway/evidence_buffer.py:105-109 | a turn of flush takes something if and only if the batch size is positive |
| EvidenceBuffer.EvidenceConserved | gateway/evidence_buffer.py:70-159 | over every interleaving each item is pending, in flight, persisted, failed or dropped by cancellation, exactly once, and the counters count |
| EvidenceBuffer.CountersAtRest | gateway/evidence_buffer.py:70-139 | at rest total_enqueued exceeds persisted plus errors by exactly what cancellation dropped |
| EvidenceBuffer.DrainKeepsOrder | gateway/evidence_buffer.py:141-159 | with the drain loop alone, cancelled and restarted at will, items settle in the order of enqueueing |
| EvidenceBuffer.FlushCanOvertake | gateway/evidence_buffer.py:102-159 | a run in which a concurrent flush settles the later item first |
| EvidenceBuffer.DrainBatchBound | gateway/evidence_buffer.py:147-152 | the drain loop keeps to the batch size exactly when that is not 1 |
| Digests.ActionDigestBinds | gateway/tokens.py:32-47 | equal digests mean equal agent, action, resource and parameters (none equals empty), or a collision; and conversely |
| Digests.IntentObject | gateway/tokens.py:39-45 | what is hashed: each text under its own key, parameters only when there are any |
| Digests.PolicyHashBinds | gateway/policy.py:40-52 | equal policy hashes mean equal version, flag and rules in order, hence the same engine rules, or a collision; and conversely |
| Digests.PolicyObject | gateway/policy.py:42-50 | what is hashed: version, rules in order with id, type and config, the flag only when set |
| Digests.RuleReads | gateway/policy.py:82-123 | which values of its config each type of rule is run with |
| Gateway.GatewayService.Authorize | gateway/gateway_service.py:105-221 | the reply or exception, and the state of chain, counters and replay cache after it |
| GatewayReplies.ReplyHadProof | gateway/gateway_service.py:138-153 | every answered call came with the caller's own unused proof, at most 30 seconds old, whose claims state this action, resource and digest |
| GatewayReplies.RefusedBefore | gateway/gateway_service.py:139-153 | which calls are refused without a proof, without a digest, and for the proof |
| GatewayReplies.ReplyDecision | gateway/gateway_service.py:156-198 | strict mode denies an unregistered resource for that alone; the engine decides every other call on its agent, action and resource |
| GatewayReplies.EnvelopeStates | gateway/gateway_service.py:189-221 | the signed body states the reply's digest, decision, reasons and jti, the policy's hash, and the resource exactly when registered |
| GatewayReplies.TokenStates | gateway/tokens.py:72-91 | the token names the caller, action, resource, digest, receipt and jti, and runs 60 seconds from its second of issue |
| GatewayReplies.TokenWithinPolicy | gateway/gateway_service.py:181-212 | a token is only issued for an action and a resource that every rule allows |
| GatewayReplies.TokenIffApproved | gateway/gateway_service.py:200-212 | an approval comes with a token, a denial never does |
| Gateway.GatewayService.GetMerkleRoot | gateway/gateway_service.py:227-232 | None for no receipts, else the batch root of their hashes |
| Gateway.GatewayService.GetChainStats | gateway/gateway_service.py:234-246 | tenant, total, approve and deny counts, Merkle root and policy version, or the exception of the last two |
| GatewayRuns.RunIsComponents | gateway/gateway_service.py:138-221 | any run of calls and registry changes is exactly one run of the replay cache, the policy engine, the receipt chain and the registry |
| GatewayRuns.OneReceiptPerCall | gateway/gateway_service.py:138-221 | a refused proof changes nothing; an accepted one takes one number and adds one receipt, the one returned, if and only if its delegation context canonicalizes |
| GatewayTheorems.ReceiptsCountAcceptedCalls | gateway/gateway_service.py:138-221 | over a run, receipts and numbers grow by exactly the accepted calls |
| GatewayTheorems.GatewayChainPasses | gateway/gateway_service.py:189-198 | a stored chain extended by any gateway run passes verify_chain if and only if no bad delegation context precedes a good one |
| GatewayTheorems.TokensAreApprovals | gateway/gateway_service.py:184-221 | tokens and approve receipts correspond one for one, in order, with equal jti, receipt hash, digest and tenant; only approvals carry a jti |
| GatewayTheorems.JtiNamesOneReceipt | gateway/tokens.py:72-91 | with fresh ids a jti names one token and one receipt |
| GatewayTheorems.ReceiptsAddUp | gateway/gateway_service.py:234-240 | approvals and denials make all receipts; approvals are the tokens handed out |
| GatewayEndToEnd.StatsAddUp | gateway/gateway_service.py:234-246 | the statistics of any run are returned, add up, and carry the root over the bodies and the policy's hash |
| GatewayTheorems.ProofAuthorizesOnce | gateway/gateway_service.py:145-153 | no proof issued at a whole second gets two replies on any run with a clock that never goes back |
| GatewayTheorems.TokensAreRateLimited | gateway/gateway_service.py:181-212 | no window of any run holds more than max_actions tokens of one agent under any rate-limit rule |
| GatewayTheorems.StrictTokensOnlyForActive | gateway/gateway_service.py:156-179 | in strict mode a token is issued only for a resource active at that moment, whatever is cached |
| GatewayTheorems.RegistrationIsCurrent | gateway/gateway_service.py:156-159 | the registration check of any call of a run answers by the last accepted registry call on the resource |
| GatewayTheorems.ReplyBindsIntent | gateway/gateway_service.py:142-153 | two replies with one action digest answer the same intent, or a collision is at hand |
| GatewayEndToEnd.GatewayPacketPasses | gateway/gateway_service.py:105-221 | every range packet of every gateway run from genesis without a burnt number passes the offline verifier |
| GatewayEndToEnd.EndpointContextFine | gateway/api.py:136-147 | a delegation context from the endpoint canonicalizes if and only if its texts hold no lone surrogate |
| GatewayEndToEnd.ContextStates | gateway/api.py:136-147 | what the dumped context states under each of its four keys |
| GatewayEndToEnd.EndpointChainPasses | gateway/api.py:463-470 | a stored chain extended by any run fed by the endpoint passes verify_chain |
| GatewayEndToEnd.EndpointPacketPasses | gateway/api.py:463-470 | every range packet of any run fed by the endpoint from genesis passes the offline verifier |
| GatewayEndToEnd.GatewayRootIsBodyRoot | gateway/gateway_service.py:227-232 | get_merkle_root never raises on the gateway's own chain and is the root over the digests of all canonical bodies |

## Left out

- FastAPI, MCP and A2A routing, request models, logging, PDF output and the language-model agents: they do not decide what is modelled here.
- Firestore, Secret Manager, web3 and HTTP: only the in-memory branches are modelled, and on-chain anchor checks are skipped, as the packet verifier does by default.
- SHA-256, Ed25519, base64 and JWT internals: parameters with the laws stated above; key and signature decoding is part of one `check`.
- Error message texts: errors are codes. Where building a message can itself raise, that is modelled.
- Envelopes with explicit null fields, non-string dict keys, floats as sequence numbers and Python's limit on the digits of `int(str)`.
- Policy configs with values of the wrong type, which make `evaluate` raise TypeError: the gateway theorems are about policies whose configs have the right types (`Digests.WellTyped`), and YAML loading is not modelled.
- Simulation.SimulatePolicy: the printed one-decimal form of the rates, the two policy hashes it returns and the 400 answer for a rule without id or type are not modelled.
- Replacing the policy of a running gateway: runs are between replacements.
- Aliasing of the documents that the resource registry returns: a caller who changes one in place changes the registry.
- `asyncio.wait_for` losing an item when its timeout races with `get`: a step of the buffer machine either gets an item or times out.
- `Gateway.GatewayService.Authorize` runs as one step: the source has no await inside it.
- Audit reports, policy snapshots, anchor transaction hashes and time ranges in packets; the log entries a packet uses are handed in as they were read, so the 10000-entry limit of that read is not modelled.
- Anchor scheduling, liveness counters, action registries and verifier dispatch tables: easy members that would add little.
- Agreement of `canonicalize` with `json.dumps(sort_keys=True)`: that depends on the library's escaping.
- Parsing of agent JWKs and the signature on registration proofs: a registration carries its kid, or None when the key does not parse.
