# LabWeaver: verified models

Dafny 4.11 models of the parts of LabWeaver whose promises span whole runs or unbounded inputs, with
proofs of those promises. `dafny verify dfyconfig.toml` checks everything.

| files | what they model |
|---|---|
| `Crypto`, `AuthStore`, `AuthRepository` | the server-side authentication store: BFF sessions, one-time logins, back-channel logout reservations, cleanup |
| `AuthCleanup`, `AuthRuns` | what holds of that store over every run |
| `Authorization`, `Delegation`, `SessionAuthority` | the scope decision, the signed delegation, and both end to end from a login |
| `AgentRun`, `AgentRunProofs` | the Agent run state machine |
| `ToolRegistry`, `ToolDispatch` | Tool registry construction; single-attempt dispatch and its races, many at once |
| `StreamSequence`, `Uuid7`, `Packages`, `Inventory` | canonical decimals, UUID version 7, problem packages, the inventory identity |
| `FileSystem`, `Manifest`, `CredentialTree`, `CredentialRegistry`, `RegistryTool` | the controller's credential registry on a file system with links |
| `RegistryGrowth`, `RegistryReplacement` | what its verification answers at every crash point of an adoption |
| `NatsSubjects` | publish-permission coverage |
| `Prelude`, `Text` | results; splitting, joining, ordering and sorting of byte strings and paths |

Code that updates state is modelled as classes and loops. Each such method is proved equal to a step on
values (`AuthStore.Step`, `AgentRun.Perform`, `ToolDispatch.Dispatch`, `CredentialRegistry.CrashPoint`),
and the theorems are about those steps and about all runs made of them.

## What is proved

* **Cleanup is invisible.** A run of the authentication store is compared with the same run with every
  cleanup erased. All answers agree *if and only if* no accepted insertion reuses a unique key that a
  cleanup had deleted. Fresh identifiers, one login for each state hash and one expiry for each logout
  token rule that out. Without them a three-step run shows the difference.
* **Rejection is permanent**, revocation evidence is frozen until a purge strictly after its retention,
  a logout token takes effect once, callbacks never outnumber logins, and a session comes back exactly
  as it was created for as long as its row is live.
* **A permit stands exactly until `valid_until`** and rests on the roles and expiry fixed at login.
* **A delegation outlives revocation.** Over every run after it was signed it decodes to its session
  until its expiry second; the session row is still live then if and only if no step revoked it.
* **Tool dispatch.** Over every schedule of wakes the biased select has exactly one ending, fixed by the
  first wake at which something happens. Any interleaving of many dispatches gives each call the answer
  and the polls it would have had alone, and polls only implementations that a low-risk binding admits.
* **The Agent run** makes at most 27 transitions, exactly reached. The event sequences that end in
  completion are characterised exactly: prelude, at most two rejected rounds, one candidate through
  every gate. A run's history rebuilds the run.
* **The 19-alternative pattern is the parser**, and both are the printed forms of 0 to 2^64 - 1.
* **The run-identifier recogniser accepts exactly what the UUID version 7 generator can print**, and
  equals the regular expression used elsewhere.
* **The inventory and the credential tree feed their hash the same bytes exactly for the same contents**,
  in whatever order the system lists them. An accepted package can be laid out as files exactly when no
  path is a component prefix of another, which the validation does not check.
* **Crash points of an adoption.** Until `current` is replaced, every verification answers as before *if
  and only if* at no crash point `current` and the manifest come to lead to a directory and a file, and no
  entry's link comes to lead to something that is judged differently and shows. Only touched links matter:
  those that pass or end at a name the adoption adds, or end above the registry. Where none is touched,
  which can be seen before the adoption, no answer changes at any of these points. A `current` or an entry
  that names the version being made shows that answers do change otherwise. What the error handler leaves
  behind has an exact condition of the same form, in which staged files left over count as well.
* **From the replacement on** verification succeeds exactly when the manifest names the digests of what the
  links lead to, and the verification that ends an adoption fails exactly when a chosen target encloses the
  registry, is replaced by `current`, or is the old manifest and hashes differently from the new one.
* **Subject coverage** equals inclusion of the matched subjects for every required subject without `>`.
  A covered subject is included exactly unless its only `>` is its last token and the permission does
  not end in `>`; `a.*` covers `a.>` without including it.

## Assumptions

* A SQL transaction is one atomic step, and the clock given to the steps never goes back. Times are whole
  microseconds, the resolution of `timestamptz`; callers' times are taken to be so already.
* `Crypto.Lawful`: authenticated decryption returns what was encrypted under the same key, nonce and
  context; JSON decoding returns what was encoded. Nothing is assumed about SHA-256 in the store.
* `Delegation.LawfulTokens`: a signed token verifies to its claims before its expiry second and to nothing
  after it, and an identifier parses from its printed form.
* `CredentialTree.IsHash`: SHA-256 prints sixty-four lower-case hexadecimal digits.
* `CredentialRegistry.Lawful`: a listing of a tree holds each entry below it once, in any order.
  `FileSystem.WellFormed`: every location lies in a directory. The kernel follows at most 40 links in one
  walk; `Path.resolve()` follows any number and takes missing names as they stand.
* `RegistryGrowth.Startable`: the registry root is given by its real location, `versions` is not a link,
  and the two random staging names are not in use. New files and directories get the owner and mode asked for.
* `CredentialTree.ValidTree`, `Inventory.WellFormed`: sibling names differ, are not empty and hold
  neither `/` nor a zero byte; permission bits fit twelve bits; a file is shorter than 2^64 bytes.
* Fresh identifiers and the other conditions of `AuthCleanup.Distinct` are hypotheses of the lemmas that
  name them, not of the model.

## Model

| member | source | states |
|---|---|---|
| Crypto.DecryptInvertsEncrypt | crates/auth/src/crypto.rs:60-105 | A ring that keeps the key another ring wrote with reads its records back under the same context. |
| AuthStore.ParseRolesInvertsRoleNames | crates/auth/src/repository.rs:411-426 | Every list of roles survives being stored by name and parsed. |
| AuthRepository.Repository.CreateBffSession | crates/auth/src/repository.rs:286-337 | New state and answer are those of the creation step, errors in source order, nothing written on any error. |
| AuthRepository.Repository.LoadBffSession | crates/auth/src/repository.rs:340-385 | New state and answer are those of the load step, with rollback when decryption or UTF-8 decoding fails after the renewal was written. |
| AuthRepository.Repository.RevokeBffSession | crates/auth/src/repository.rs:429-445 | Keeps the first revocation time and diagnostic, writes them otherwise, touches one row. |
| AuthRepository.Repository.RevokeBffSessionsBySid | crates/auth/src/repository.rs:448-463 | Revokes exactly the unrevoked rows with that provider session and counts them. |
| AuthRepository.Repository.ConsumeBackchannelLogout | crates/auth/src/repository.rs:467-506 | Reserves the token and revokes its sessions together, or changes nothing. |
| AuthRepository.Repository.BeginLogin | services/access-service/src/main.rs:592-616 | Inserts one pending login, or is refused by the cipher, the expiry check or either unique column. |
| AuthRepository.Repository.ConsumeOidcTransaction | crates/auth/src/repository.rs:509-541 | Marks exactly the matching live login consumed, or changes nothing. |
| AuthRepository.Repository.CleanupExpiredAuthState | crates/auth/src/repository.rs:90-134 | The four statements in sequence equal one row-by-row sweep, with the same four counts. |
| AuthRepository.SweepSessions | crates/auth/src/repository.rs:100-114 | Stamping expired rows and then purging old ones never purges a row stamped in the same cleanup. |
| AuthCleanup.CleanupKeepsShadow | crates/auth/src/repository.rs:100-126 | A cleanup of one of two related stores changes only rows that no later answer can depend on. |
| AuthCleanup.StepKeepsShadow | crates/auth/src/repository.rs:286-541 | Any other step gives related stores the same observable answer exactly when it reuses no deleted key, and then keeps them related. |
| AuthCleanup.CleanupIsInvisible | crates/auth/src/repository.rs:88-134 | For every run with a clock that never goes back, erasing all cleanups changes no answer if and only if no accepted step reuses a key a cleanup deleted. |
| AuthCleanup.DistinctRunsReuseNothing | crates/auth/src/repository.rs:121-126 | Distinct identifiers and one expiry for each token imply that no deleted key is ever reused. |
| AuthCleanup.CleanupInvisibleForDistinctRuns | crates/auth/src/repository.rs:88-134 | Under those assumptions every accept or reject and every returned session is independent of cleanup. |
| AuthCleanup.ReusedTokenRevealsCleanup | crates/auth/src/repository.rs:121-126 | Without them it is not: a token identifier reused with a later expiry is accepted only because of a cleanup. |
| AuthRuns.RejectionIsPermanent | crates/auth/src/repository.rs:340-357 | Once revoked, expired, idle-expired or deleted, a session is refused by every later load of every run that does not create it again. |
| AuthRuns.ReachableStoresAreSound | crates/auth/src/repository.rs:296-303 | In every reachable store the idle deadline is within the absolute one, roles are readable and not empty, revisions positive, and revocation time and diagnostic come together. |
| AuthRuns.RefusalChangesNothing | crates/auth/src/repository.rs:371-379 | In such stores the parse after the commit cannot fail, so every refused operation leaves the whole store as it was. |
| AuthRuns.RevocationCause | crates/auth/src/repository.rs:429-463 | Exactly four steps revoke an unrevoked row, each stamping its own time and diagnostic. |
| AuthRuns.EvidenceIsStable | crates/auth/src/repository.rs:95-114 | Over a whole run a revoked row is unchanged until, and deleted exactly by, a cleanup strictly more than its retention after the first revocation. |
| AuthRuns.LogoutTakesEffectOnce | crates/auth/src/repository.rs:467-494 | A token accepted once is refused at every later point of the run, cleanups or not, and the replay leaves the whole store unchanged. |
| AuthRuns.LogoutEndsSessions | crates/auth/src/repository.rs:495-505 | After an accepted logout no session created with that provider session loads again. |
| AuthRuns.LoadReturnsCreated | crates/auth/src/repository.rs:340-384 | Whatever happened in between, a load succeeds exactly while the row is live and returns the identity, roles, expiry and CSRF token of the creation with the idle deadline renewed. |
| AuthRuns.IdleDeadlinesOnlyGrow | crates/auth/src/repository.rs:358-364 | With one idle lifetime, an idle deadline never moves earlier in any run and never passes the absolute one. |
| AuthRuns.ReachableStoresAreIdleBounded | crates/auth/src/repository.rs:358-364 | With one idle lifetime, no reachable store holds an idle deadline beyond that lifetime or beyond the absolute expiry. |
| AuthRuns.LiveUnlessRevoked | crates/auth/src/repository.rs:340-364 | Over every run, a session whose deadlines lie after a given time is live at that time if and only if no step of the run revokes it. |
| AuthRuns.ConsumptionsNeedLogins | crates/auth/src/repository.rs:509-541 | Under any interleaving, accepted callbacks for a state hash never outnumber accepted logins. |
| AuthRuns.LoginIsConsumedOnce | crates/auth/src/repository.rs:509-541 | A state hash drawn for one login is consumed at most once in any run. |
| AuthRuns.ConsumeIsExact | crates/auth/src/repository.rs:517-540 | Success only before expiry and only on the very state presented; a failed attempt leaves the store as it was. |
| AuthRuns.CallbackReturnsLogin | crates/auth/src/repository.rs:509-541 | After an accepted login and any run that does not present its state, the exact state gets that login back until expiry, whatever colliding states were tried; a second callback is refused. |
| Authorization.FindGrant | crates/auth/src/authorization.rs:85-101 | Finds the first membership that grants the scope, and finds one whenever there is one. |
| Authorization.PermitExactly | crates/auth/src/authorization.rs:23-83 | Permit, role denial, scope denial and expiry partition all inputs by required role, granting membership and unexpired actor, in that order; a permit takes its revision and end from the first granting membership. |
| Authorization.PermitStandsExactlyUntil | crates/auth/src/authorization.rs:37-82 | A permit at `now` is the same decision at a later time if and only if that time is before its `valid_until`. |
| Authorization.OnlyGrantingMembershipsCount | crates/auth/src/authorization.rs:54-65 | Expired and non-matching memberships, in any number and order, do not influence the decision. |
| Delegation.EncodeExactly | crates/auth/src/resource_delegation.rs:41-52 | Signing succeeds exactly when the nearer deadline is at or after the next whole second. |
| Delegation.ExpiryWithinDeadlines | crates/auth/src/resource_delegation.rs:47-71 | The token is issued in the current second, expires in the second of the nearer deadline of its session, and never later than either. |
| Delegation.DecodeInvertsEncode | crates/auth/src/resource_delegation.rs:82-126 | Before its expiry second a token gives back the actor, session and roles that were signed; after that second it is refused. |
| SessionAuthority.PermitTracesToLogin | services/access-service/src/main.rs:761-792 | A permit decided on a loaded session names the actor logged in, needs a role verified then, and ends by the expiry fixed then. |
| SessionAuthority.DelegationOverRun | crates/auth/src/resource_delegation.rs:40-126 | A delegation of a loaded session decodes to it until the expiry second whatever the store does meanwhile, and the row is live then if and only if no step of that run revoked it. |
| SessionAuthority.RevokedSessionStillDelegates | crates/auth/src/resource_delegation.rs:82-126 | After a revocation the delegation still decodes although the session is not live. |
| AgentRun.NewAgent | crates/agent-core/src/state_machine.rs:179-190 | A blank identifier is refused; any other gives a fresh run. |
| AgentRun.Agent.constructor | crates/agent-core/src/state_machine.rs:184-189 | A run starts in Parse with no repairs and no history. |
| AgentRun.Agent.ApplyEvent | crates/agent-core/src/state_machine.rs:223-232 | Takes exactly the specified transition or leaves the run unchanged. |
| AgentRun.Agent.ApplyFailure | crates/agent-core/src/state_machine.rs:243-264 | Fails a live run with a stable diagnostic, refuses otherwise without change. |
| AgentRun.Agent.CommitTransition | crates/agent-core/src/state_machine.rs:266-290 | Appends one numbered record and moves, unless the sequence would overflow. |
| AgentRunProofs.StopsExactlyWhileLive | crates/agent-core/src/state_machine.rs:223-264 | Cancellation, and failure with a stable diagnostic, are accepted exactly while the run is live and end it; no call changes a terminal run. |
| AgentRunProofs.RankDrops | crates/agent-core/src/state_machine.rs:292-360 | Every accepted call lowers the rank of the run. |
| AgentRunProofs.SlowestEventLosesOne | crates/agent-core/src/state_machine.rs:292-360 | From every live configuration some event is accepted and lowers it by exactly one, so the rank is the longest remaining run. |
| AgentRunProofs.LengthBound | crates/agent-core/src/state_machine.rs:266-360 | From any run, transitions made plus rank left never exceed the rank at the start. |
| AgentRunProofs.SlowestCallsReachTheBound | crates/agent-core/src/state_machine.rs:4-4 | From any run, some calls make exactly as many transitions as its rank. |
| AgentRunProofs.AtMost27Transitions | crates/agent-core/src/state_machine.rs:266-290 | Every run makes at most 27 transitions, one makes 27, and sequence overflow is unreachable. |
| AgentRunProofs.EveryRunIsEvidence | crates/agent-core/src/state_machine.rs:223-290 | Records are numbered 1..n and chained, carry a stable diagnostic exactly when they fail or cancel the run, and replay to the same run. |
| AgentRunProofs.CompletionNeedsEveryGate | crates/agent-core/src/state_machine.rs:304-354 | A completed run consists of the prelude, as many rejected rounds as repairs, and one candidate through every gate. |
| AgentRunProofs.CompletingEventsComplete | crates/agent-core/src/state_machine.rs:304-354 | Every such event sequence with at most two rejected rounds is accepted event by event and completes the run. |
| AgentRunProofs.CompletionLanguage | crates/agent-core/src/state_machine.rs:292-360 | The two descriptions of completed histories agree for every event sequence. |
| AgentRunProofs.ReleasedCandidatePassedEveryGate | crates/agent-core/src/state_machine.rs:314-354 | After the last candidate of a completed run come exactly the schema, policy, execution, verification and release events. |
| AgentRunProofs.AtMostThreeCandidates | crates/agent-core/src/state_machine.rs:336-349 | No run generates more than three candidates. |
| ToolRegistry.Install | crates/agent-core/src/tool.rs:579-589 | The table is built exactly when implementation names are distinct, and indexes all of them. |
| ToolRegistry.BindAll | crates/agent-core/src/tool.rs:591-644 | Draining the table binding by binding serves every binding or names a true reason for refusal. |
| ToolRegistry.New | crates/agent-core/src/tool.rs:572-646 | Succeeds exactly on non-empty, distinct bindings with distinct, fitting implementations; holds exactly the bound names; every refusal states a fact about the inputs. |
| ToolDispatch.Select | crates/agent-core/src/tool.rs:730-763 | Wake by wake, cancellation before the implementation before the timer: the loop computes the ending and the number of polls of the schedule. |
| ToolDispatch.FirstDecidingWake | crates/agent-core/src/tool.rs:734-763 | The first wake at which something happens fixes the ending; the future is polled at every wake up to it, and at it unless it sees cancellation. |
| ToolDispatch.EndingIsFinal | crates/agent-core/src/tool.rs:734-763 | Later wakes change neither the ending nor the number of polls. |
| ToolDispatch.SpuriousWakesDoNotMatter | crates/agent-core/src/tool.rs:734-763 | Erasing every wake at which nothing happens leaves the ending as it is. |
| ToolDispatch.NoPollOnceCancelled | crates/agent-core/src/tool.rs:735-741 | The implementation is never polled at or after a wake that sees cancellation. |
| ToolDispatch.NoPollAfterDeadline | crates/agent-core/src/tool.rs:730-751 | It is never polled after the first wake at or past the bound timeout, by which the race has ended. |
| ToolDispatch.RaceExactly | crates/agent-core/src/tool.rs:734-763 | A result is kept exactly when it is ready before cancellation is seen and by the first wake past the deadline; timeout, cancellation and no ending yet are characterised likewise. |
| ToolDispatch.Execute | crates/agent-core/src/tool.rs:661-763 | Lookup, the three checks in order, the race and the output checks give the specified answer and number of polls. |
| ToolDispatch.SucceedsExactly | crates/agent-core/src/tool.rs:766-799 | Success exactly when a bound, uncancelled, low-risk call with admitted input is answered first by its implementation, with an output of the declared version and schema. |
| ToolDispatch.FailureReason | crates/agent-core/src/tool.rs:683-763 | Over every schedule, exactly when a bound call is cancelled, times out, fails with a given code, or is still waiting. |
| ToolDispatch.AuditIsTruthful | crates/agent-core/src/tool.rs:801-852 | The audit names caller, tool, bound version, risk and timeout, and its outcome and diagnostic agree with the result and with whether the implementation was polled. |
| ToolDispatch.InterleavingIsInvisible | crates/agent-core/src/tool.rs:661-763 | In any interleaving of arrivals and wakes, each call has the answer and the number of polls that it would have had alone. |
| ToolDispatch.StartsExactly | crates/agent-core/src/tool.rs:661-763 | In any interleaving a call starts its implementation once if it is dispatchable and its first wake sees no cancellation, and otherwise never. |
| ToolDispatch.EveryPollIsAuthorised | crates/agent-core/src/tool.rs:572-763 | On a registry built from its bindings every poll is of an installed implementation that fits a low-risk binding of the called name, with an input its schema admits. |
| StreamSequence.FromStrInvertsDisplay | crates/contracts/src/foundation.rs:215-236 | A string parses to a number exactly when the number fits 64 bits and prints as that string. |
| StreamSequence.ParseComputesValue | crates/contracts/src/foundation.rs:231-234 | The overflow-checked digit loop computes the decimal value, or fails exactly when it exceeds 64 bits. |
| StreamSequence.PatternIsFromStr | crates/contracts/src/foundation.rs:188-198 | The 19-alternative pattern accepts exactly the strings the parser accepts, none longer than 20. |
| Packages.AcceptedPathIsNormal | crates/contracts/src/foundation.rs:412-431 | An accepted path resolves inside its root to its own components and is spelled by them. |
| Packages.LocationInjective | crates/contracts/src/foundation.rs:412-431 | Two accepted paths reach one location only if they are the same bytes. |
| Packages.Validate | crates/contracts/src/authoring.rs:40-66 | Comparing neighbours accepts exactly the globally strictly increasing packages of valid files, and otherwise reports the first spoiled file. |
| Packages.AcceptedIsCanonical | crates/contracts/src/authoring.rs:46-62 | Two accepted lists with the same files are the same list. |
| Packages.AcceptedLocationsAreDistinct | crates/contracts/src/authoring.rs:48-64 | No two files of an accepted package share a location and none lies outside the root. |
| Packages.LayoutExactly | crates/contracts/src/authoring.rs:46-64 | An accepted package can be laid out as a file tree exactly when no path is a component prefix of another. |
| Packages.AcceptedWithoutLayout | crates/contracts/src/authoring.rs:57-62 | `a`, `a-b`, `a/b` is accepted, no file tree lays it out, and neither pair of neighbours clashes. |
| Uuid7.Generate | tools/prepare_platform_access_seed.py:60-70 | Shifting and or-ing field by field yields the five fields side by side; a clock outside 48 bits is refused. |
| Uuid7.PackedFields | tools/prepare_platform_access_seed.py:65-69 | The value is below 2^128, has version 7 and variant 10, and gives back time and random fields. |
| Uuid7.EveryVersion7IsPacked | tools/prepare_platform_access_seed.py:65-69 | Every 128-bit value of that version and variant is packed from its own fields. |
| Uuid7.PackedOrder | tools/prepare_platform_access_seed.py:65-69 | Values drawn at different milliseconds are ordered by time. |
| Uuid7.RecogniserIsRegular | tools/validate_resource_replay_inputs.py:31 | The byte-level recogniser accepts exactly the regular expression, in spite of its wider byte range. |
| Uuid7.AcceptedExactlyGenerated | xtask/src/main.rs:1910-1924 | A text is accepted exactly when it is the hyphenated form of a value the generator can produce. |
| Inventory.Walk | xtask/src/main.rs:1688-1709 | The worklist collects the same files, with multiplicity, as the recursive walk. |
| Inventory.LeavesAreKeyed | xtask/src/main.rs:1703-1707 | Each file not named `.vault-password` is collected exactly once, and nothing else is. |
| Inventory.Feed | xtask/src/main.rs:1711-1729 | The hasher is fed the framed records in order. |
| Inventory.StreamInjective | xtask/src/main.rs:1725-1728 | The framed stream determines its records. |
| Inventory.Identity | xtask/src/main.rs:1687-1731 | Walk, sort and feed produce the identity bytes of the tree. |
| Inventory.IdentityIsExact | xtask/src/main.rs:1687-1731 | Two trees feed the same bytes if and only if they hold the same files, whatever the listing order. |
| Manifest.ManifestRoundTrip | tools/update_credential_registry_current.py:141-143 | The manifest printed for the five entries parses back to exactly those entries. |
| Manifest.ParseExactly | tools/update_credential_registry_current.py:195-206 | Well-formed lines are accepted exactly when there are five and no name repeats; each name then has the digest on its line. |
| Manifest.AcceptedManifestIsWellFormed | tools/update_credential_registry_current.py:195-206 | An accepted manifest consists of well-formed lines only. |
| CredentialTree.Content | tools/update_credential_registry_current.py:121-138 | Sorting, stamping and feeding produce the content bytes of a file or tree. |
| CredentialTree.TreeFramingIsExact | tools/update_credential_registry_current.py:126-138 | Two trees feed the same bytes if and only if they hold the same (kind, path, mode, digest) entries. |
| CredentialTree.HeaderFileIsEmptyTree | tools/update_credential_registry_current.py:124-126 | A file of just the tree header and an empty tree feed the same bytes. |
| CredentialTree.TargetFramingIsExact | tools/update_credential_registry_current.py:121-138 | Two targets of any kind feed the same bytes exactly when they are equal files, trees of the same entries, or a tree and a file that spells out its listing. |
| RegistryTool.ParseManifest | tools/update_credential_registry_current.py:195-206 | The parsing loop computes the recursive reading of the manifest. |
| RegistryTool.ValidateTarget | tools/update_credential_registry_current.py:70-111 | Returns the first of the three refusals in source order, the entries of a tree in sorted order; none exactly when the target is below a `.private`, there, owned, unshared, and so is everything in it, without links. |
| CredentialRegistry.CurrentResolves | tools/update_credential_registry_current.py:179-185 | Where the kernel finds `current` to be a directory, `resolve()` gives that directory. |
| RegistryTool.Registry.VerifyCurrent | tools/update_credential_registry_current.py:171-222 | Returns the specified verdict, first error first, ownership, modes and each refusal of a target included. |
| CredentialRegistry.VerifyExactly | tools/update_credential_registry_current.py:171-222 | Succeeds exactly when links, owners and modes are as demanded, `current` leads to a complete version of the expected run, and the manifest reads as the digests of what its links lead to; then reports that run and five entries. |
| RegistryTool.Registry.Adopt | tools/update_credential_registry_current.py:225-272 | A refusal, each with its own error and the targets in manifest order, leaves at most the root and `versions` made; killed after any number of operations, the file system is that crash point; on an error the staged files are removed; at the end the answer is the verification of the new state. |
| RegistryGrowth.LeadUnchanged | tools/update_credential_registry_current.py:207-217 | An entry whose link neither passes nor ends at an added name, nor ends above `versions`, leads to the same refusal or digest after any such addition. |
| RegistryGrowth.GrowthsShowExactly | tools/update_credential_registry_current.py:179-217 | Two ways of adding names below a new version or staged in the root, with nothing new in common, give all the same answers if and only if `current` and the manifest come to lead to a directory and a file in both or neither, and no touched entry leads to things judged differently while all entries before it pass and no later one fails alike. |
| RegistryGrowth.GrowthShowsExactly | tools/update_credential_registry_current.py:179-217 | So adding such names changes some answer if and only if this tells the grown files from those before. |
| RegistryGrowth.UnchangedBeforeReplacement | tools/update_credential_registry_current.py:248-260 | At every crash point before `current` is replaced, every verification answers as before the adoption, if and only if none of them can be told from the start in this sense. |
| RegistryGrowth.UntouchedLinksAnswerAsBefore | tools/update_credential_registry_current.py:248-260 | If, before the adoption, neither `current` nor the manifest stops at a name it adds and no entry of the current version is touched, every verification answers as before at each of these points. |
| RegistryGrowth.RevivedLinkStoppedAtCreatedName | tools/update_credential_registry_current.py:248-259 | A `current` or manifest that comes to lead somewhere had stopped at a name that the adoption adds. |
| RegistryGrowth.LeftOverLinkComesAlive | tools/update_credential_registry_current.py:179-187 | At a concrete root whose `current` names the version being made, the missing current version becomes an invalid one. |
| RegistryGrowth.EntryComesAlive | tools/update_credential_registry_current.py:211-215 | In every registry below a `.private`, an entry that names the version being made is refused as invalid before the first step and leads to an acceptable tree after it. |
| RegistryTool.AnswersAsBeforeAfterError | tools/update_credential_registry_current.py:264-267 | After an error at any point before the replacement, with staged files removed, every verification answers as before the adoption if no link is touched by the added names or by staged files left over. |
| RegistryTool.ErrorShowsExactly | tools/update_credential_registry_current.py:264-267 | Once the handler has removed the staged files, all answers are as before the adoption if and only if what is left cannot be told, in the same sense, from what was there. |
| RegistryTool.HandlerCanLoseCurrent | tools/update_credential_registry_current.py:264-266 | A `current` that leads through a staged link left over is missing once the handler has removed it. |
| RegistryReplacement.BetweenReplacements | tools/update_credential_registry_current.py:261-262 | Between the two replacements, whatever is at the manifest's name, verification succeeds exactly when no chosen target encloses the registry or is replaced by `current`, and the manifest found then names the digests they had. |
| RegistryReplacement.AfterAdoption | tools/update_credential_registry_current.py:263-272 | For as long as the registry stays as adopted, verification succeeds with the new run and five entries exactly while every chosen path leads to an acceptable target that hashes as recorded. |
| RegistryReplacement.FreshAdoptionVerifies | tools/update_credential_registry_current.py:243-272 | The verification that ends an adoption succeeds exactly when no chosen target encloses the registry, is replaced by `current`, or is the old manifest with another digest than the new one. |
| NatsSubjects.PermissionCovers | tools/validate_nats_user_credentials.py:39-47 | The indexed loop decides the recursive meaning of `*` and a final `>`. |
| NatsSubjects.Validate | tools/validate_nats_user_credentials.py:57-64 | Accepts exactly when every required subject is covered by some allowed pattern. |
| NatsSubjects.CoverageIsInclusion | tools/validate_nats_user_credentials.py:39-47 | For a required subject without `>`, coverage holds if and only if every concrete subject it stands for is permitted. |
| NatsSubjects.WhenCoverageIncludes | tools/validate_nats_user_credentials.py:42-47 | A covered required subject is included if and only if it is not open-ended (its only `>` last) or the permission ends in `>`. |
| NatsSubjects.StarCoversRest | tools/validate_nats_user_credentials.py:45-46 | The permission `a.*` covers the required `a.>` and does not include it. |

## Left out

- SQL text, isolation, pooling and database failures; the foreign keys of other tables (a console capability can make a purge fail, which then changes nothing); the column checks on revocation diagnostics and token hashes, which callers meet with constants and digests.
- `load_logout_hint`, and the numbers of rows revoked, as observations of cleanup: both read rows without an expiry test, so cleanup does show in them.
- Actors, memberships and service identities in the database; environment owner resolution and the cap on decision expiry in the access service.
- ChaCha20-Poly1305, SHA-256, HMAC, base64 and randomness, which enter as function values with the stated laws.
- Delegation.DecodeInvertsEncode: says nothing within the expiry second itself, where the token library decides.
- Time stamps are integers: the RFC 3339 grammar of `UtcTimestamp` is not modelled.
- JSON Schema compilation and validation: uninterpreted predicates; error texts carry no detail.
- ToolDispatch.StartsExactly: a start is the first poll of the implementation's future; work that an implementation does before it returns its future is not modelled.
- Inventory.IdentityIsExact: names that are not valid UTF-8 are outside the model; the lossy conversion maps different such names to the same bytes. Symbolic links and read errors are not modelled.
- CredentialRegistry.VerifyExactly: which names and contents count as sensitive is an uninterpreted predicate; files are regular files, directories or links; a link that leads back to itself gives one error of its own, also where only a missing name keeps the kernel from seeing the loop.
- RegistryTool.Registry.Adopt: targets are given by their resolved locations; the handler's removal of staged files is taken to succeed and to skip directories.
- Uuid7.Generate: the clock and the two random draws are arguments.
- The rest of the contracts, configuration, network clients, services, web interface and other tools: field checks and I/O.
