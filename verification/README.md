# Verified model of a threshold Ed25519 stack

This project models the core of a Go library for threshold Ed25519 signatures and proves
what its parts promise, in Dafny:

- **FROST** signing: Lagrange interpolation, binding factors, signature shares, the share check
  and aggregation (`Interpolation`, `Party`, `Frost`);
- the **ROAST** coordinator that makes signing robust: its bookkeeping (`Ledger`), its state
  machine (`Roast`, `RoastEffects`, `RoastFailure`), the object itself (`RoastCoordinator`), how many sessions a
  run can reach (`SessionTightness`, `RoastTightness`), its signers
  (`RoastSigner`), the asynchronous system of coordinator, honest signers and adversary
  (`RoastSystem`), and the loops of the command-line program (`RoastSimulation`);
- the **reputation-weighted** coordinator (`Reputation`, `ReputationCoordinator`);
- **ChillDKG** key generation in its three layers, with share encryption, the equality
  certificate, recovery and agreement (`Vss`, `Wire`, `Certeq`, `Ecdh`, `SimplPedPop`,
  `EncPedPop`, `ChillDkg`, `ChillDkgSession`, `Recovery`, `RecoveryCorrect`, `Agreement`), and
  the export of its keys to signing (`KeyExport`);
- the **round driver** and the round-based signing protocol on top of it (`SignRounds`,
  `RoundState`, `TooFewSigners`), with its wire messages (`Messages`);
- what every hash of signing and key generation binds (`HashBinding`);
- polynomials in the exponent (`Exponent`) and the expected number of ROAST sessions
  (`ExpectedSessions`).

`dafny verify dfyconfig.toml` checks everything.

## How the model is set up

Scalars are integers modulo a prime `q`. Inverses and the absence of zero divisors are proved in
`PrimeField` from primality, and the interpolation theorem is proved from them. The group is
cyclic of prime order, so an `Element` is a discrete logarithm that is only looked at modulo
`q`: `Equal` and the encodings reduce it. SHA-512, the reduction of digests to scalars and the
byte codecs are fields of a `Suite`; every theorem holds for all of them, and `Suite.Valid`
lists the little that is used (lengths, canonical scalars, codecs that decode exactly the
encodings, an injective Ed25519 encoding). Since nothing is assumed of the hash functions,
`HashBinding` speaks of collisions: two hashes are equal if and only if all their inputs agree or
two named byte strings collide. Fresh nonces and randomness are parameters. A Go map iteration is a loop that picks
any remaining key.

`Assumptions` shows that all this can be met: there is a valid suite for every prime between 2^32
and 2^256, an honest session of every size in every valid suite, and a valid signing system from
its keys.

Code that changes fields is a class (`Coordinator`, `ReputationCoordinator`, `Signer`, `State`)
whose methods are proved against functions or predicates on values; loops are methods with
invariants, proved against the function or the property they compute. Preconditions are the
places where the code would crash or index out of range: a reply comes from a party and carries
commitments, lists in messages are long enough to be indexed, indices for the evaluators are not
zero.

The code and the documentation differ in three places, and the model follows the code. The
coordinator's `t` is the key's threshold plus one (`pkg/roast/coordinator.go:48`), and the
session bound is stated with that `t`. The ChillDKG polynomial has `t` coefficients, so its
degree is `t - 1` (`pkg/frost/chilldkg/vss.go:17-26`), while `README.md:178` says degree `t`;
`OutputToFROST` hands the same `t` on as the signing threshold, which is why it needs `t < n`.
The wire types are 1 and 2 (`pkg/messages/messages.go:19-23`).

Findings, each with its lemma:

- "At most f + 1 sessions" (`README.md:308`) bounds the sessions the coordinator starts if and
  only if f >= n - t. With slow but honest signers n - t + 1 sessions are reached without any
  fault, for every n and t (`SessionTightness.FaultsBoundExactly`,
  `RoastTightness.SystemBoundReached`).
- Too many malicious parties are reported only to a sender that is left waiting, not by the call
  that finds the last of them, and the run is not closed: sessions that were open can still
  finish it, while no new one starts (`RoastFailure.TooManyExactly`,
  `RoastFailure.NoNewSessions`, `RoastFailure.LateFinish`).
- `Recover` panics on certified recovery data with `t = 0`, for example on four zero bytes
  (`RecoveryCorrect.ZeroDataPanics`, `RecoveryCorrect.RecoveredIsCertified`).
- `Message.UnmarshalBinary` reports success for a message whose payload did not parse
  (`Messages.EmptyPayloadAccepted`); the payload is there exactly for 69 or 37 bytes with
  canonical blocks (`Messages.PayloadGuard`). The driver stores such a message, and
  `ProcessAll` panics exactly when its scan meets one before a message that is refused
  (`RoundState.State.ProcessAll`, `RoundState.SomeOrderPanics`). No later call gets past that
  round (`RoundState.Drive`).
- A polynomial in the exponent survives marshalling exactly up to 65535 coefficients
  (`Exponent.MarshalRoundTrip`).
- `Recover` cuts the threshold to 16 bits: the parameters it returns are the transcript's if and
  only if t < 65536, and for every larger t certified data is accepted with a wrong threshold
  (`RecoveryCorrect.RecoveredParamsExactly`, `RecoveryCorrect.WrongThresholdAccepted`).
- The round-based signer does not compare the number of signers with the threshold. Its final
  check fails exactly when the challenge is not zero and the signers' shares do not interpolate to
  the group key (`SignRounds.FinalCheckExactly`). For as many signers as the threshold that is
  exactly when neither the challenge nor the key polynomial's highest coefficient is zero
  (`TooFewSigners.ThresholdSignersFail`). Keys exported from ChillDKG have a zero there, so t
  signers are enough for them (`KeyExport.ExportedSignersPass`).

## Model

| member | source | states |
|---|---|---|
| `PrimeField.InverseCorrect` | pkg/frost/party/id.go:151-152 | the inverse by Euclid's algorithm is an inverse, for every nonzero residue of a prime |
| `Interpolation.DenominatorNonzero` | pkg/frost/party/id.go:146-149 | the zero-denominator check can never fire for identifiers below q |
| `Interpolation.CoefficientsSumToOne` | pkg/frost/party/id.go:113-154 | the Lagrange coefficients of any set of distinct nonzero points sum to one |
| `Interpolation.InterpolatesAtZero` | pkg/frost/party/id.go:113-154 | for every set of distinct nonzero points and every polynomial with at most that many coefficients, the weighted sum of the values is the value at zero |
| `Interpolation.InterpolationError` | pkg/frost/party/id.go:113-154 | with one point too few the weighted sum misses the value at zero by the highest coefficient times the product of the negated points |
| `Party.Lagrange` | pkg/frost/party/id.go:113-154 | the loop returns an error exactly for identifier 0 and non-members, else the reduced coefficient that solves coefficient * denominator = numerator |
| `Party.NewIDSlice` | pkg/frost/party/idslice.go:11-15 | a sorted permutation of its input |
| `Party.SortedCopy` | pkg/frost/party/idslice.go:11-15 | on a list without repetitions it is the one increasing enumeration of the members, whatever the order of the input |
| `Frost.ComputeGroupKey` | pkg/eddsa/public.go:53-63 | the loop computes the interpolation of the public shares |
| `Frost.InterpolatedKeyIsConstantTerm` | pkg/eddsa/public.go:53-63 | shares on a polynomial interpolate to its constant term, for every large enough set |
| `Frost.GroupKeyFromAnySubset` | pkg/eddsa/public.go:53-63 | the group key from all shares equals the one from any large enough subset |
| `Frost.OneShareTooFew` | pkg/eddsa/public.go:53-63 | with one party too few the interpolation is the group key if and only if the highest coefficient is zero |
| `Frost.NewPublicConsistent` | pkg/eddsa/public.go:29-50 | shares on a polynomial of degree threshold make consistent keys |
| `Frost.BindingBuffer` | pkg/roast/crypto.go:27-45 | the buffer filled by appending is tag, identifier, message digest and the list of all commitments in order |
| `Frost.ComputeBindingFactors` | pkg/roast/crypto.go:27-57 | the factors from the one buffer patched in place are, for every signer, the hash of the freshly built string; the identifier the buffer starts with leaves no trace, so both implementations agree |
| `Frost.PatchIdentifier` | pkg/frost/sign/round1.go:67-74 | overwriting the identifier bytes turns one signer's string into another's |
| `HashBinding.BindingFactorBinds` | pkg/roast/crypto.go:27-57 | a binding factor binds the signer's identifier, the message digest, and the identifiers and commitments of all signers in order: equal exactly when these agree or the hashed strings collide |
| `HashBinding.ChallengeBinds` | pkg/eddsa/signature.go:31-44 | the signing challenge binds nonce, group key and message in the same sense |
| `Frost.ComputeNonceCommitments` | pkg/roast/crypto.go:59-76 | every signer's nonce share and their sum |
| `Frost.ShareValExact` | pkg/roast/crypto.go:78-93 | the share check accepts exactly the residue class of nonce + challenge * coefficient * key share |
| `Frost.ShareUnique` | pkg/roast/crypto.go:78-93 | the share check accepts one canonical scalar only |
| `Frost.HonestShareValid` | pkg/roast/crypto.go:95-115 | the share computed from the committed nonces and the secret share passes the check |
| `Frost.SignAgg` | pkg/roast/crypto.go:117-127 | the sum over the share map does not depend on the iteration order |
| `Frost.AggregateVerifiesExactly` | pkg/roast/crypto.go:78-127 | for any keys, an aggregate of checked shares verifies if and only if the challenge is zero or the signers' key shares interpolate to the group key |
| `Frost.AggregateVerifies` | pkg/eddsa/public_key.go:22-31 | with consistent keys and more than threshold signers an aggregate of checked shares always verifies |
| `Ledger.StepInv` | pkg/roast/coordinator.go:63-155 | every call keeps the bookkeeping invariant: disjoint sets, one open session per signer, fewer than t responsive signers, at most n - t + 1 sessions |
| `Ledger.StuckSigners` | pkg/roast/coordinator.go:63-155 | every unfinished session has its own signer that is stuck in it |
| `Ledger.SessionsNeedFaults` | pkg/roast/coordinator.go:63-155 | when everybody who is asked or blamed is faulty, no more sessions have been started than there are faulty signers |
| `Ledger.RoomForSessions` | pkg/roast/coordinator.go:102-116 | sessions started plus responsive signers never exceed n |
| `Ledger.SessionBound` | pkg/roast/coordinator.go:118-155 | the bound on sessions over all runs of the bookkeeping |
| `SessionTightness.BoundReached` | pkg/roast/coordinator.go:118-155 | for every n and t some run without any fault starts exactly n - t + 1 sessions |
| `SessionTightness.FaultsBoundExactly` | README.md:308-308 | f faulty signers bound the sessions of every run by f + 1 if and only if f >= n - t |
| `RoastTightness.Realise` | pkg/roast/signer.go:27-47 | every run of the bookkeeping with honest signers only is a run of coordinator, signers and network |
| `RoastTightness.SystemBoundReached` | pkg/roast/coordinator.go:118-155 | with all parties honest some run of the system starts exactly n - t + 1 sessions, and none starts more |
| `RoastTightness.SessionsStoppedByFaults` | README.md:308-308 | at any moment of any run at which no honest signer is asked for a share, at most f sessions have been started, so one more is enough |
| `Ledger.StepProgress` | pkg/roast/coordinator.go:63-116 | every accepted reply adds exactly one to a progress measure that no other reply changes |
| `Ledger.AcceptedBound` | pkg/roast/coordinator.go:63-116 | at most n + t * (n - t + 1) replies are accepted in a run |
| `Roast.StepFollowsLedger` | pkg/roast/coordinator.go:63-116 | each call of the coordinator does to the bookkeeping exactly what the abstract step does |
| `Roast.StepInv` | pkg/roast/coordinator.go:63-162 | each call, whatever the reply, keeps the full invariant, including that every stored share is valid for its session |
| `Roast.CompleteSessionVerifies` | pkg/roast/session.go:22-55 | a session with t stored shares gives a signature that verifies under the group key |
| `Roast.CompleteMeansVerified` | pkg/roast/coordinator.go:92-99 | the fall-through after a failed verification is unreachable |
| `RoastEffects.EveryStartAnnounced` | pkg/roast/coordinator.go:102-116 | in every run, every call that starts a session announces it: the too-many-malicious exit never discards its requests |
| `RoastFailure.TooManyExactly` | pkg/roast/coordinator.go:102-115 | in every run a call returns the too-many-malicious error if and only if it leaves its sender responsive in an unfinished run with more than n - t malicious parties |
| `RoastFailure.NoNewSessions` | pkg/roast/coordinator.go:107-113 | once more than n - t parties are malicious, however the run is continued, they stay so and no session is started |
| `RoastFailure.LateFinish` | pkg/roast/coordinator.go:92-99 | if such a run still finishes, the last share completes a session that was open before |
| `Roast.FinishedForever` | pkg/roast/coordinator.go:67-69 | however a finished run is continued, its state does not change and every call returns the same signature, which verifies |
| `Roast.SafeStep` | pkg/roast/coordinator.go:63-162 | for any keys, consistent or not, every call leaves all lookups defined and fewer than t responsive signers |
| `Roast.SessionBound` | pkg/roast/coordinator.go:118-121 | in every run, however adversarial, at most n - t + 1 sessions are started, numbered from 1 |
| `Roast.AcceptedBound` | pkg/roast/coordinator.go:63-116 | at most n + t * (n - t + 1) replies of any run are accepted |
| `Roast.PendingExactly` | pkg/roast/session.go:39-55 | in every unfinished run a session member is pending there exactly when it has neither given a valid share nor become malicious, and no session is complete |
| `RoastEffects.FreshEffect` | pkg/roast/coordinator.go:102-116 | a first reply places its sender and every responsive signer, and touches nobody else |
| `RoastEffects.CountsEffect` | pkg/roast/coordinator.go:75-116 | a valid share ends the run or places its sender again, and marks nobody malicious |
| `RoastEffects.RefusedEffect` | pkg/roast/coordinator.go:67-90 | a refused reply starts nothing and changes nothing for any other signer |
| `RoastCoordinator.CheckShare` | pkg/roast/crypto.go:78-93 | the computation with the Lagrange loop is the share check |
| `RoastCoordinator.NewSession` | pkg/roast/session.go:22-37 | factors, nonces and challenge of the session are those of its signers' commitments |
| `RoastCoordinator.ValidateAndStore` | pkg/roast/session.go:39-51 | a share is stored exactly when it passes, and nothing else changes |
| `RoastCoordinator.Enrol` | pkg/roast/coordinator.go:138-141 | the signers of a new session, and only they, move from the responsive set to the session map |
| `RoastCoordinator.MakeRequests` | pkg/roast/coordinator.go:143-154 | one identical request per signer |
| `RoastCoordinator.Coordinator.MarkMalicious` | pkg/roast/coordinator.go:157-162 | the signer joins the malicious set and leaves the responsive set and both maps; nothing else changes |
| `RoastCoordinator.Coordinator.CollectSigners` | pkg/roast/coordinator.go:122-131 | at most t distinct responsive signers in any order, all of them when there are exactly t |
| `RoastCoordinator.Coordinator.InitiateSession` | pkg/roast/coordinator.go:118-155 | the object's step is the session start of the state machine |
| `RoastCoordinator.Coordinator.HandleResponse` | pkg/roast/coordinator.go:63-116 | the object's new state and its three results are the step of the state machine, for every reply of a party and for any keys, including the continuation after a failed verification; with consistent keys the full invariant is kept; when it reports too many malicious parties is `RoastFailure.TooManyExactly` |
| `RoastSigner.ComputeShare` | pkg/roast/crypto.go:95-115 | the computation with its loops is the signer's share |
| `RoastSigner.Signer.Init` | pkg/roast/signer.go:27-31 | the nonces are kept and their commitments returned |
| `RoastSigner.Signer.Sign` | pkg/roast/signer.go:37-47 | the share uses the nonces held before the call, which are replaced; without a share, exactly for an identifier that is 0 or not in the set, they stay |
| `RoastSystem.HonestShareAccepted` | pkg/roast/crypto.go:78-115 | the share of an honest signer is accepted by the session built from its commitment |
| `RoastSystem.SignSignerInv` | pkg/roast/signer.go:37-47 | signing a request keeps the joint invariant of coordinator, signers and network |
| `RoastSystem.DeliverInv` | pkg/roast/coordinator.go:63-116 | so does delivering the reply of an honest signer |
| `RoastSystem.CorruptInv` | pkg/roast/coordinator.go:63-116 | so does any message of a corrupt party |
| `RoastSystem.HonestReplyAccepted` | pkg/roast/coordinator.go:75-116 | the reply of an honest signer is always accepted |
| `RoastSystem.HonestNeverBlamed` | pkg/roast/signer.go:27-47 | across all interleavings no honest signer is ever marked malicious |
| `RoastSystem.NoDeadlock` | pkg/roast/coordinator.go:102-116 | with t honest signers an unfinished run always has an honest signer that can act |
| `RoastSystem.HonestActionsBounded` | pkg/roast/coordinator.go:63-116 | in any run the honest signers act a bounded number of times before the signature is there |
| `RoastSystem.FairRunsFinish` | pkg/roast/coordinator.go:92-116 | a run that leaves no honest action undone has ended with a signature that verifies |
| `RoastSimulation.MergeLoop` | cmd/roast/roast.go:169-176 | the request loop gives every signer of the announced session its request |
| `RoastSimulation.Round` | cmd/roast/roast.go:144-183 | one round, in any order of the map, ends with the signature or with at least one more session |
| `RoastSimulation.InitialPhase` | cmd/roast/roast.go:123-141 | after the first commitments at least one session is running and nobody is blamed |
| `RoastSimulation.Simulate` | cmd/roast/roast.go:119-183 | with at most n - t silent signers the program always finds a valid signature within its cap of n rounds, after at most n - t + 1 sessions |
| `Reputation.Validate` | pkg/roast/reputation.go:37-51 | accepts exactly the sound configurations |
| `Reputation.DefaultReputationConfig` | pkg/roast/reputation.go:28-35 | the default configuration is sound |
| `Reputation.WeightsFollow` | pkg/roast/reputation.go:103-239 | after every call the weights are a closed form of the protocol state: the capped reward for the shares given, decayed once if the run has ended without the signer, zero for the malicious |
| `Reputation.WeightBounds` | pkg/roast/reputation.go:212-239 | weights stay in [0, wMax], are zero exactly for malicious parties, and never fall below w0 before the end or w0 * gamma after it |
| `Reputation.WeightsFinish` | pkg/roast/reputation.go:225-239 | the decay at the end of the run touches exactly the non-participants that are not malicious |
| `Reputation.DecayOnlyAtTheEnd` | pkg/roast/reputation.go:103-159 | no call but the one that ends the run changes the weight of anybody but the sender; that one multiplies by gamma the weights of those outside the completed session that are not malicious, so decay happens at most once |
| `ReputationCoordinator.SortCandidates` | pkg/roast/reputation.go:165-176 | the responsive signers in the order heavier first, then smaller identifier |
| `ReputationCoordinator.ReputationCoordinator.Reward` | pkg/roast/reputation.go:212-215 | the capped reward |
| `ReputationCoordinator.ReputationCoordinator.DecayNonParticipants` | pkg/roast/reputation.go:225-239 | the loop over the weights, in any order, decays each of the others once |
| `ReputationCoordinator.ReputationCoordinator.CollectSigners` | pkg/roast/reputation.go:161-187 | nobody left out comes before one taken, and with exactly t responsive signers all are taken |
| `ReputationCoordinator.ReputationCoordinator.HandleResponse` | pkg/roast/reputation.go:103-159 | state and results are the step of the plain coordinator, for any keys; with consistent keys the weights keep their closed form |
| `ReputationCoordinator.NewReputationCoordinator` | pkg/roast/reputation.go:75-101 | refused exactly for an unsound configuration |
| `ReputationCoordinator.TraceEquivalence` | pkg/roast/reputation.go:103-210 | fed the same replies, the two coordinators return the same results call by call, for any keys |
| `Vss.EvalAt` | pkg/frost/chilldkg/vss.go:28-36 | the Horner loop computes the value of the polynomial |
| `Vss.SecShares` | pkg/frost/chilldkg/vss.go:44-51 | share i is the value at i + 1 |
| `Vss.Commit` | pkg/frost/chilldkg/vss.go:53-59 | the commitment to every coefficient |
| `Vss.ComputePubShare` | pkg/frost/chilldkg/vss.go:78-89 | the Horner loop in the exponent computes the commitment to the value |
| `Vss.VerifyExact` | pkg/frost/chilldkg/vss.go:108-112 | the share check accepts exactly the value of the committed polynomial |
| `Vss.EvalSum` | pkg/frost/chilldkg/simplpedpop.go:95-111 | evaluation commutes with summing polynomials |
| `Vss.SharesDetermineSecret` | pkg/frost/chilldkg/vss.go:17-51 | any t different shares of a polynomial with t coefficients interpolate to its constant term |
| `Wire.U32RoundTrip` | pkg/frost/chilldkg/recovery.go:86-86 | four big-endian bytes give the number back modulo 2^32 |
| `Wire.U32Digits` | pkg/frost/chilldkg/recovery.go:25-26 | the four bytes are the digits to base 256, the highest first |
| `Wire.BlocksJoin` | pkg/frost/chilldkg/recovery.go:92-130 | cutting joined blocks of one size gives the blocks |
| `Wire.JoinBlocks` | pkg/frost/chilldkg/recovery.go:92-130 | joining the blocks of a string gives the string |
| `Wire.DecodeElements` | pkg/frost/chilldkg/recovery.go:92-97 | succeeds exactly when every block is a canonical element, with those elements |
| `Wire.DecodeScalars` | pkg/frost/chilldkg/recovery.go:123-129 | the same for scalars |
| `Certeq.SignatureVerifies` | pkg/frost/chilldkg/certeq.go:50-94 | a signature verifies under the public key of its secret key |
| `Certeq.SchnorrExact` | pkg/frost/chilldkg/certeq.go:73-94 | for the key x and the nonce k, a signature with scalar z is accepted if and only if z is congruent to k + c * x |
| `Certeq.SchnorrUnique` | pkg/frost/chilldkg/certeq.go:73-94 | for each key, message and nonce point exactly one scalar is accepted |
| `Certeq.SchnorrForm` | pkg/frost/chilldkg/certeq.go:73-94 | whatever is accepted is the encoding of a point and a reduced scalar that solve the equation |
| `Certeq.BuildCerteqMessage` | pkg/frost/chilldkg/certeq.go:13-21 | the padding loop adds nothing |
| `Certeq.CerteqMessageInjective` | pkg/frost/chilldkg/certeq.go:13-21 | the message determines index and transcript |
| `Certeq.CerteqVerify` | pkg/frost/chilldkg/certeq.go:28-44 | accepts exactly the certificates of the right length with every signature valid, and blames the first bad one |
| `Certeq.SignaturesCertify` | pkg/frost/chilldkg/certeq.go:28-44 | joined signatures are a certificate exactly when each verifies |
| `Ecdh.PadsAgree` | pkg/frost/chilldkg/ecdh.go:15-28 | sender and receiver derive the same pad |
| `Ecdh.EncryptMulti` | pkg/frost/chilldkg/ecdh.go:38-63 | every plaintext with the pad of its receiver added |
| `Ecdh.DecapsMulti` | pkg/frost/chilldkg/ecdh.go:65-79 | the pad of every sender |
| `Ecdh.DecryptSum` | pkg/frost/chilldkg/ecdh.go:81-91 | the ciphertext sum without all pads |
| `Ecdh.PadsCancel` | pkg/frost/chilldkg/ecdh.go:54-91 | taking the pads off the sum of ciphertexts leaves the sum of plaintexts |
| `HashBinding.EcdhPadBinds` | pkg/frost/chilldkg/ecdh.go:15-28 | two pads are equal if and only if shared point, sender's key, receiver's key and context agree or the two hashed strings collide, whichever ends compute them |
| `HashBinding.SelfPadBinds` | pkg/frost/chilldkg/ecdh.go:30-36 | the same for the pad of a participant for itself, with its key, nonce and context |
| `HashBinding.SendPadBinds` | pkg/frost/chilldkg/ecdh.go:38-52 | two pads of any senders are equal if and only if nonce, receiver, host keys, and index and threshold modulo 2^32 agree and both or neither are for the sender itself, or the hashed strings collide: no pad covers two shares |
| `HashBinding.ContextBinds` | pkg/frost/chilldkg/params.go:48-57 | the context names the threshold modulo 2^32 and all host keys |
| `HashBinding.SeedBinds` | pkg/frost/chilldkg/encpedpop.go:40-41 | the inner seed binds the long-term seed, the randomness and the context |
| `HashBinding.SecNonceBinds` | pkg/frost/chilldkg/encpedpop.go:43-46 | the encryption nonce binds the inner seed |
| `HashBinding.CoefficientBinds` | pkg/frost/chilldkg/vss.go:17-26 | a coefficient binds the seed and its index |
| `HashBinding.SchnorrChallengeBinds` | pkg/frost/chilldkg/certeq.go:96-106 | the challenge binds nonce point, key and message |
| `HashBinding.NonceBinds` | pkg/frost/chilldkg/certeq.go:50-71 | two signatures share the nonce point only for one key and one message, or by a collision |
| `SimplPedPop.VssGenerate` | pkg/frost/chilldkg/vss.go:17-26 | t coefficients, each hashed from the seed and its index |
| `SimplPedPop.ParticipantStep1` | pkg/frost/chilldkg/simplpedpop.go:28-75 | succeeds exactly for t <= n, an index below n and 32-byte inputs; then state, message and shares |
| `SimplPedPop.AddTerms` | pkg/frost/chilldkg/simplpedpop.go:99-102 | adds the terms in place, coefficient by coefficient |
| `SimplPedPop.AssembleSumComs` | pkg/frost/chilldkg/simplpedpop.go:207-214 | the sum of the constant terms before the summed other terms |
| `SimplPedPop.ReplyCommitsToSum` | pkg/frost/chilldkg/simplpedpop.go:87-111 | the assembled commitment commits to the sum of all polynomials |
| `SimplPedPop.CoordinatorStep` | pkg/frost/chilldkg/simplpedpop.go:77-135 | refused exactly for a wrong count; else message, output and start of the transcript |
| `SimplPedPop.ParticipantStep2` | pkg/frost/chilldkg/simplpedpop.go:137-205 | succeeds exactly when the own commitment is repeated, every other commitment is not the identity and has a good proof of possession, and the share fits; on success the share matches the own public share in the output; blames the first bad proof |
| `SimplPedPop.HonestPop` | pkg/frost/chilldkg/simplpedpop.go:150-169 | an honest proof of possession is accepted exactly when the constant term is not zero |
| `EncPedPop.ParticipantStep1` | pkg/frost/chilldkg/encpedpop.go:27-69 | succeeds exactly for 32 random bytes, t <= n and an index below n; then state and encrypted message |
| `EncPedPop.AddCiphertexts` | pkg/frost/chilldkg/encpedpop.go:95-103 | the reduced sum of the ciphertexts for one receiver |
| `EncPedPop.CoordinatorStep` | pkg/frost/chilldkg/encpedpop.go:71-118 | refused exactly for a wrong count; else message, output, transcript and ciphertext sums |
| `EncPedPop.ParticipantStep2` | pkg/frost/chilldkg/encpedpop.go:120-158 | succeeds exactly when the own nonce is repeated and the inner step accepts the decrypted share, which then matches the own public share |
| `EncPedPop.JointCommitment` | pkg/frost/chilldkg/encpedpop.go:71-118 | the summed commitment of an honest session commits to the joint polynomial |
| `EncPedPop.ReceivesJointShare` | pkg/frost/chilldkg/encpedpop.go:94-143 | pads cancel: participant i decrypts the value of the joint polynomial at i + 1 |
| `ChillDkg.ParamsValidate` | pkg/frost/chilldkg/params.go:10-29 | accepts exactly 1 <= t <= n < 2^32 with different host keys, and reports the first repetition |
| `ChillDkg.FindHostKey` | pkg/frost/chilldkg/participant.go:40-49 | the first position of the key, or none |
| `ChillDkg.ParticipantStep1` | pkg/frost/chilldkg/participant.go:29-77 | succeeds exactly for valid parameters, 32 random bytes and a listed host key; then state and message |
| `ChillDkg.ParticipantStep2` | pkg/frost/chilldkg/participant.go:79-113 | succeeds exactly when the checks accept; signs the transcript built from the coordinator's message; the share of the output matches the own public share |
| `ChillDkg.AcceptedShare` | pkg/frost/chilldkg/simplpedpop.go:171-177 | for any coordinator message, what is accepted is the share of the polynomial the message commits to, and matches its public share |
| `ChillDkg.ParticipantFinalize` | pkg/frost/chilldkg/participant.go:115-128 | succeeds exactly for a certificate on the own transcript; recovery data is transcript and certificate |
| `ChillDkg.CoordinatorStep1` | pkg/frost/chilldkg/coordinator.go:24-66 | succeeds exactly for valid parameters and n messages; reply, transcript and output |
| `ChillDkg.CoordinatorFinalize` | pkg/frost/chilldkg/coordinator.go:68-106 | succeeds exactly for n signatures of 64 bytes that certify the transcript |
| `ChillDkgSession.ShareIsJoint` | pkg/frost/chilldkg/encpedpop.go:120-158 | the output of participant i is its value of the joint polynomial and the joint public values |
| `ChillDkgSession.HonestAccepts` | pkg/frost/chilldkg/simplpedpop.go:146-177 | participant i of an honest session accepts exactly when all other constant terms are not zero |
| `ChillDkgSession.SignaturesValid` | pkg/frost/chilldkg/certeq.go:23-44 | the signatures of an honest session are a certificate |
| `ChillDkgSession.OutputsShareTheSecret` | pkg/frost/chilldkg/chilldkg.go:24-75 | any t participants reconstruct the secret behind the threshold key, and public shares commit to secret shares |
| `ChillDkgSession.FinishAll` | pkg/frost/chilldkg/participant.go:115-128 | all participants finalise exactly when the certificate fits every transcript; each keeps its output and its own copy of the recovery data |
| `ChillDkgSession.SimulateSession` | pkg/frost/chilldkg/chilldkg.go:24-75 | for all valid n and t and host keys in order, the session succeeds exactly when n = 1 or no constant term is zero, with exactly these outputs; the recovery data of the coordinator and of every participant are the same bytes |
| `Recovery.DeserializeRecoveryData` | pkg/frost/chilldkg/recovery.go:82-134 | the loops over the advancing slice read exactly the data that cuts and parses |
| `Recovery.DeserializeSerialize` | pkg/frost/chilldkg/recovery.go:82-134 | reading what was written gives the transcript back in canonical form, for every shaped transcript |
| `Recovery.SerializeDeserialize` | pkg/frost/chilldkg/recovery.go:82-134 | data that is read is written back byte for byte |
| `Recovery.Recover` | pkg/frost/chilldkg/recovery.go:11-80 | refused, panicking or recovered, exactly by parsing, certificate, t = 0, host key and share check |
| `RecoveryCorrect.RecoverReturnsOutput` | pkg/frost/chilldkg/recovery.go:11-80 | from the data of an honest session host key i recovers exactly participant i's output and the parameters |
| `RecoveryCorrect.RecoverPublicOutput` | pkg/frost/chilldkg/recovery.go:44-53 | without a host key the public output comes back |
| `RecoveryCorrect.RecoveredIsCertified` | pkg/frost/chilldkg/recovery.go:11-53 | whatever is accepted is certified by every host key it names and reproduced byte for byte; it panics exactly for t = 0 |
| `RecoveryCorrect.RecoveredShareMatches` | pkg/frost/chilldkg/recovery.go:55-77 | a share is recovered only for a named host key, is the share of the committed polynomial, and matches its public share |
| `RecoveryCorrect.RecoveredParamsExactly` | pkg/frost/chilldkg/recovery.go:20-23 | the recovered parameters are those of the transcript if and only if its threshold fits 16 bits |
| `RecoveryCorrect.SignedIsAccepted` | pkg/frost/chilldkg/recovery.go:11-53 | every transcript with t >= 1 that the holders of its host keys sign is accepted, with the threshold cut to 16 bits |
| `RecoveryCorrect.WrongThresholdAccepted` | pkg/frost/chilldkg/recovery.go:20-23 | for every t from 65536 on certified data is accepted with a wrong threshold |
| `RecoveryCorrect.ZeroDataPanics` | pkg/frost/chilldkg/recovery.go:44-44 | four zero bytes make Recover panic |
| `Agreement.BytesDetermineTranscript` | pkg/frost/chilldkg/participant.go:87-101 | equal transcript bytes mean equal threshold, host keys, commitment, nonces and ciphertexts |
| `Agreement.TranscriptDeterminesResult` | pkg/frost/chilldkg/participant.go:79-113 | one transcript, one threshold key and one list of public shares |
| `Agreement.SharesAgree` | pkg/frost/chilldkg/participant.go:79-113 | participants of one transcript, whoever sent what, hold shares of the same polynomial, matching each other's public shares |
| `Agreement.SecretIsShared` | pkg/frost/chilldkg/participant.go:79-113 | the shares of any t participants of one transcript reconstruct the secret behind everybody's threshold key |
| `Agreement.FinalisedMeansAgreement` | pkg/frost/chilldkg/participant.go:115-128 | if a participant can finalise, every honest participant on its list signed the same transcript at the same index with the same public result, and holds its share of the one committed polynomial, matching the finaliser's public shares, provided honest signatures in the certificate are not forged |
| `KeyExport.NewPublic` | pkg/eddsa/public.go:29-50 | refused exactly when the 16-bit threshold + 1 exceeds the number of shares; else the sorted parties and the interpolated key |
| `KeyExport.OutputToFROST` | pkg/frost/chilldkg/chilldkg.go:77-99 | the exported shares and secrets, and exactly when the export is refused |
| `KeyExport.ExportConsistent` | pkg/frost/chilldkg/chilldkg.go:77-99 | for t < n and 16-bit identifiers the exported keys are consistent, and their group key is the threshold key |
| `KeyExport.ExportSecrets` | pkg/frost/chilldkg/chilldkg.go:93-96 | every exported secret belongs to its public share |
| `KeyExport.ExportedSignersPass` | pkg/frost/sign/round2.go:33-53 | for keys exported from an honest session t signers are enough: every valid job with at least t of them passes the final check, with the agreed signature |
| `KeyExport.GenerateAndSign` | pkg/frost/chilldkg/chilldkg.go:24-99 | an honest key generation followed by ROAST signing with fewer than n - t silent signers always gives a signature that verifies under the threshold key |
| `SignRounds.Contains` | pkg/frost/party/idslice.go:18-25 | the binary search finds exactly the members of a sorted slice |
| `SignRounds.IsSubsetOf` | pkg/frost/party/idslice.go:33-40 | the loop decides inclusion |
| `SignRounds.NewRound` | pkg/frost/sign/base.go:46-90 | a job is refused exactly when it is not valid; else the weighted keys of all signers |
| `SignRounds.NonceLoop` | pkg/frost/sign/round1.go:80-89 | every R_i and their sum, in any order of the map |
| `SignRounds.GenerateShare` | pkg/frost/sign/round1.go:77-107 | binding factors, nonce, challenge and own share of round 1 |
| `SignRounds.OwnShareIsRoastShare` | pkg/frost/sign/round1.go:91-103 | the share of round 1 is the share of ROAST on the same inputs |
| `SignRounds.ResponseCheckIsRoastCheck` | pkg/frost/sign/round2.go:17-31 | the check of round 2 is ROAST's share check on the same inputs |
| `SignRounds.ShareStarts` | pkg/frost/sign/round1.go:77-107 | after round 1 the own share is valid for the commitments seen |
| `SignRounds.ResponseKept` | pkg/frost/sign/round2.go:17-31 | processing a share in round 2 keeps all valid shares and adds one |
| `SignRounds.AggregateIsAgreed` | pkg/frost/sign/round2.go:33-45 | with all shares in, the aggregate is one signature determined by keys, message and commitments, whatever was sent |
| `SignRounds.FinalCheckExactly` | pkg/frost/sign/round2.go:46-48 | the final verification succeeds if and only if the challenge is zero or the signers' key shares interpolate to the group key |
| `SignRounds.FinalCheckPasses` | pkg/frost/sign/round2.go:33-53 | for consistent keys and more than threshold signers it always does |
| `TooFewSigners.ThresholdSignersFail` | pkg/frost/sign/round2.go:33-48 | for any key polynomial and any signers as many as the threshold, with all shares valid: the final check fails if and only if neither the challenge nor the highest coefficient is zero |
| `TooFewSigners.LoneSignerFails` | pkg/frost/sign/base.go:46-90 | one such job for the keys of the polynomial X, from its acceptance to the final check |
| `TooFewSigners.LoneSignerWitness` | pkg/frost/sign/round2.go:46-48 | a suite in which it does fail |
| `SignRounds.ViewDeterminesSignature` | pkg/frost/sign/round2.go:33-53 | equal views of the commitments give equal signatures |
| `RoundState.Compact` | pkg/state/state.go:169-178 | the in-place compaction keeps exactly the later messages in order, and moves the others, the last of each sender winning |
| `RoundState.RestConcat` | pkg/state/state.go:169-178 | what stays queued is decided message by message and keeps its order |
| `RoundState.RestMembers` | pkg/state/state.go:169-178 | exactly the messages of other types stay |
| `RoundState.MovedExactly` | pkg/state/state.go:171-173 | a sender gets a stored message exactly when one of the type was queued, and then its last one |
| `RoundState.ProcessKeeps` | pkg/state/state.go:148-153 | processing a message keeps what the round needs, among it that no processed commitment is the identity, and records its sender |
| `RoundState.RefusedExactly` | pkg/frost/sign/round1.go:16-26 | round 1 refuses exactly the messages that commit to the identity |
| `RoundState.IdentityStops` | pkg/frost/sign/round1.go:19-22 | a stored commitment to the identity makes ProcessAll fail when no payload is missing, and the sender of the first one in the scan order is blamed |
| `RoundState.ViewHasNoIdentity` | pkg/frost/sign/round1.go:19-25 | in every state past round 1 and in every successful end no other party's commitment is the identity |
| `RoundState.State.constructor` | pkg/state/state.go:35-58 | a valid initial state with placeholders for all others |
| `RoundState.State.HandleMessage` | pkg/state/state.go:80-126 | for any message, with or without its payload: when it is stored or queued, exactly, and that nothing is accepted in round 0 |
| `RoundState.State.TimeOut` | pkg/state/state.go:45-49 | an unfinished protocol fails, a finished one does not change |
| `RoundState.State.ReportError` | pkg/state/state.go:215-227 | the first error ends the protocol and wipes the secrets |
| `RoundState.State.ProcessReceived` | pkg/state/state.go:148-153 | every stored message is processed once, in the order of the scan, until one is refused or has no payload |
| `RoundState.ScanExactly` | pkg/state/state.go:148-153 | the scan stops at the first message that is not fine as judged before the scan, and passes when all are |
| `RoundState.SomeOrderPanics` | pkg/frost/sign/round2.go:17-31 | some order of the map panics if and only if some stored message has no payload |
| `RoundState.MissingNeverPasses` | pkg/frost/sign/round1.go:16-26 | with a payload missing no order lets the round pass, and without a refused message every order panics |
| `RoundState.State.NextRoundMessages` | pkg/state/state.go:166-179 | accepted types, stored messages and queue of the next round |
| `RoundState.State.ProcessAll` | pkg/state/state.go:135-191 | nothing happens until everybody has been heard; then it panics exactly when the scan meets a message without its payload before a refused one, fails by the first refused one, or completes the round: the final check fails, the protocol ends with the agreed and verified signature, or the next round begins with its message |
| `RoundState.AllReceived` | pkg/state/state.go:143-146 | the count of stored messages is n - 1 exactly when every other party is there |
| `RoundState.ExactlyOnce` | pkg/state/state.go:135-191 | the log of completed rounds has exactly one processed message of every other party and one generate step for each of them; a scan that panics logs nothing, and its round is never completed |
| `RoundState.Drive` | pkg/state/state.go:80-191 | over any further messages, processing attempts and timeouts after a panic, the round is never passed: nothing is logged or output, the stored messages stay, and the protocol can only fail |
| `RoundState.FinishersAgree` | pkg/frost/sign/round2.go:17-53 | two parties that finish the same job with the same view hold the same verified signature |
| `Messages.MarshalUnmarshal` | pkg/messages/messages.go:25-91 | every well-formed message is marshalled into exactly Size bytes and read back equal |
| `Messages.UnmarshalMarshal` | pkg/messages/messages.go:67-91 | a message read with its payload is written back byte for byte |
| `Messages.EmptyPayloadAccepted` | pkg/messages/messages.go:75-90 | a bare header is accepted without error and without payload |
| `Messages.PayloadExactly` | pkg/messages/messages.go:67-91 | the payload is there if and only if the data is what some well-formed message is marshalled to |
| `Messages.PayloadGuard` | pkg/messages/messages.go:75-90 | for a caller: that is so exactly for 69 or 37 bytes by type with canonical blocks |
| `Messages.HeaderRefused` | pkg/messages/header.go:31-82 | unmarshalling refuses exactly short data, unknown types, sender 0 and receivers other than 0; marshalling refuses exactly those headers and missing payloads |
| `Messages.HeaderParses` | pkg/messages/header.go:66-82 | the bytes of a header are read back |
| `Messages.IDDigits` | pkg/frost/party/id.go:43-64 | an identifier is two bytes, the high one first, in both directions |
| `Exponent.EvaluateClassic` | pkg/internal/polynomial/exponent.go:39-58 | the value of the polynomial in the exponent |
| `Exponent.EvaluateVar` | pkg/internal/polynomial/exponent.go:63-82 | the same by a table of powers |
| `Exponent.EvaluateHorner` | pkg/internal/polynomial/exponent.go:87-102 | the same from the highest coefficient down |
| `Exponent.EvaluateScalar` | pkg/internal/polynomial/polynomial.go:39-51 | the scalar Horner loop computes the value |
| `Exponent.EvaluatorsAgree` | pkg/internal/polynomial/exponent.go:39-102 | all three evaluators agree with each other and with the commitment to the scalar value, at every nonzero index and any degree |
| `Exponent.AddTo` | pkg/internal/polynomial/exponent.go:121-131 | refused exactly for different lengths, else coefficient-wise in place |
| `Exponent.SumExponents` | pkg/internal/polynomial/exponent.go:134-148 | refused exactly for different lengths, else the sum of all |
| `Exponent.EvaluateCommutesWithSum` | pkg/internal/polynomial/exponent.go:134-148 | the value of the sum is the sum of the values |
| `Exponent.MarshalSize` | pkg/internal/polynomial/exponent.go:223-225 | the exact size |
| `Exponent.MarshalRoundTrip` | pkg/internal/polynomial/exponent.go:179-225 | marshal then unmarshal gives the polynomial back for at most 65535 coefficients and fails for more |
| `Exponent.UnmarshalBinary` | pkg/internal/polynomial/exponent.go:185-213 | the loop reads exactly the data of the announced size with canonical elements |
| `ExpectedSessions.ComputeE0` | verify_e0.py:5-11 | every entry of the list filled backwards is the recurrence for the hypergeometric success probabilities |
| `ExpectedSessions.ComputeE0Closed` | verify_e0.py:14-22 | the closed sum of products equals the recurrence |
| `ExpectedSessions.ComputeE0Alpha` | verify_e0.py:25-38 | every entry of the list is the recurrence for the weighted success probabilities |
| `ExpectedSessions.RecurrenceIsClosed` | verify_e0.py:5-22 | recurrence and closed sum agree for any probabilities |
| `ExpectedSessions.AlphaOneIsExact` | verify_e0.py:25-33 | at alpha = 1 the product of draws is the quotient of binomials |
| `ExpectedSessions.ExpectationFacts` | verify_e0.py:5-38 | the expectation lies between 1 and f + 1, in both forms, and equals the weighted one at alpha = 1 |
| `ExpectedSessions.AlphaMonotone` | verify_e0.py:25-38 | the weighted expectation grows with alpha and stays within the same bounds |

## Left out

- Sessions, co-signers and queue entries are values held in maps and sequences rather than shared objects, so aliasing between a `Session` and other holders of it is not captured; no code path of the originals relies on it.
- Curve and field arithmetic of ristretto255, SHA-512 and the byte codecs: abstracted as a prime-order group, arbitrary functions and exact codecs.
- Unforgeability and any probabilistic argument: the only assumption on signatures is the one in `Agreement.Unforged`, about the certificate at hand.
- Mutexes, channels, timers and `WaitForError`: each locked method is atomic and a timeout is one call of `TimeOut`.
- `pkg/internal/zk/schnorr.go`, `ParamsID`, `GenerateHostKey` and `HostSeckeyFromBytes`: not used by the steps that are modelled.
- JSON, text and base64 encodings, `pkg/eddsa/secret_share.go` and `pkg/eddsa/signature.go`: encodings for files and tools, which no protocol step reads or writes.
- Command-line tools other than the ROAST loops, transports, examples and experiments.
- Buffer capacities, among them the 16-bit product in `pkg/frost/sign/round1.go:39`: a capacity does not change what is appended.
- Error texts: errors are values that name the kind and the culprit.
- A panic of `ProcessAll` that nobody recovers ends the program; the model covers the calls that can follow when it is recovered (`RoundState.Drive`).
- The liveness of a whole round-based signing run: the driver rejects a next-round message of a sender whose current message is stored, so the result depends on the order of delivery and on resending.
- Floating-point rounding of weights and expectations: reals are used.
- Exponent.EvaluateClassic: index 0 is outside its precondition, because the code panics there; the same holds for the other evaluators.
