# Models of SOMA in Dafny

This project models the parts of SOMA whose correctness does not show from reading one function,
and proves what their documentation promises. Each module follows one component:

- `RecordChannel`: the authenticated record channel between host and guest, under an ideal cipher
  that opens exactly what the peer sealed under the same nonce.
- `Publication`: the content-addressed blob store, with any number of publishers interleaving.
- `Manifest`, `Descriptors`: the descriptor manifest and the sealing of a jailed child's table.
- `Platform`, `Traversal`, `Selection`: platform claims, the walk over an OCI index graph, and the
  selection of one image.
- `Correlator`: concurrent JSON-RPC calls over one stdio session.
- `Jail`: the ledger of what one jail launch creates, and the launch itself.
- `Lifecycle`: the guest agent's controller, its runtime ledger, boot and the request loop.
- `LayerPaths`, `LayerTar`: the path rules and the streaming validation of a layer archive.
- `OutputStream`: the combined output allowance of a command.
- `KernelLayout`, `KernelNotes`, `Scanning`: the layout and entry checks of a kernel image.
- `BurstSlot`, `BurstRun`, `Milestones`: the burst benchmark's writer and its fail-closed reader.
- `Artifacts`, `Percentile`: reservation of published artifacts, and nearest-rank percentiles.
- `Counting`, `Separated`, `Sorting`, `Wrappers`: counting and ranking, splitting and joining, stable
  sorting, and shared types.

Where the source changes state, a class or a method with loops does the same and is proved against
a function on values; the theorems are about those functions, over all inputs and all runs. System
calls, the network, clocks and thread scheduling are inputs: parameters that decide every answer, or
the order of events in a run.

Five promises turned out to hold only under a condition, which is proved exactly:

- A blob that one publisher has accepted can still be removed by the publisher that created the
  link. Without faults this happens if and only if there is a rival, which stages the right bytes
  but expects another size (`Publication.AcceptedCanBeLostIffRival`); at any instant, if and only if
  the creator is undoing its link or will not find the bytes good
  (`Publication.RemovableWithoutFaultsIffDoomed`); and with faults allowed, if and only if it has not
  yet accepted them (`Publication.RemovableIffCreatorUndecided`).
- A call returns a frame with its own identifier except that in Python `True` equals 1, so a frame
  with the identifier `true` answers call 1 (`Correlator.ReturnsItsOwnFrame`).
- A failing reader tells every call registered at that moment, and no call that registers later
  (`Correlator.LateCallsAreNeverTold`).
- At the end of the stream the reader stops without telling anyone, so that a call without mail can
  only time out or fail to write (`Correlator.EndOfStreamTellsNobody`).
- A child that was found gone is left alone, except that a failing launch forgets an answer that the
  child had already been reaped: a launch addresses a child it has found gone if and only if that was
  the answer (`Jail.LaunchAddressesGoneChildIff`).

## Model

| member | source | states |
|---|---|---|
| `RecordChannel.AcceptedIsPrefixOfSealed` | crates/soma-guest/src/record.rs:62-124 | in every interleaving of seals and arbitrary deliveries each side has accepted a prefix of what the other sealed |
| `RecordChannel.UndisturbedDeliveryAcceptsAll` | crates/soma-guest/src/record.rs:100-124 | delivering the outstanding frames untouched hands over every sealed payload, and poisons nobody |
| `RecordChannel.NextFrameIsAccepted` | crates/soma-guest/src/record.rs:100-124 | delivering the next outstanding frame hands over exactly its payload and leaves the sender as it was |
| `RecordChannel.OpenAcceptsExactlyTheNextFrame` | crates/soma-guest/src/record.rs:100-153 | a record is accepted if and only if it is byte for byte the next frame of the peer; anything else poisons |
| `RecordChannel.PoisonIsPermanent` | crates/soma-guest/src/record.rs:62-110 | after the first rejected record that side never seals or opens again, whatever happens |
| `RecordChannel.SealUsesTheNextNumber` | crates/soma-guest/src/record.rs:8-90 | the number and nonce sealed next is the count of earlier seals, never the reserved 2^64-1, and the later length conversions cannot fail |
| `RecordChannel.InvHolds` | crates/soma-guest/src/record.rs:62-124 | nonces, counters, logs and accepted prefixes stay in step in both directions over every event sequence |
| `RecordChannel.SealKeepsDirection` | crates/soma-guest/src/record.rs:62-90 | a seal keeps what is true of both directions |
| `RecordChannel.OpenKeepsDirection` | crates/soma-guest/src/record.rs:100-124 | an open, accepting or rejecting, keeps what is true of both directions |
| `RecordChannel.ExactCiphertextInvertsFrame` | crates/soma-guest/src/record.rs:127-138 | a frame parses to a ciphertext if and only if it is the framing of it, with nothing missing or left over |
| `RecordChannel.ExactPlaintextInvertsInner` | crates/soma-guest/src/record.rs:140-153 | an inner record parses to a payload exactly under its own sequence number |
| `RecordChannel.BigEndianRoundTrip` | crates/soma-guest/src/record.rs:62-90 | a length or number that fits its width survives the big-endian encoding |
| `RecordChannel.AuthenticatedSession.Seal` | crates/soma-guest/src/record.rs:62-90 | new session state, cipher log and result are those of the seal function |
| `RecordChannel.AuthenticatedSession.Open` | crates/soma-guest/src/record.rs:100-110 | new session state and result are those of the open function; any failure poisons |
| `RecordChannel.AuthenticatedSession.OpenOnce` | crates/soma-guest/src/record.rs:112-124 | one attempt to open: the receive nonce and counter advance exactly on success of their step |
| `Publication.SuccessMeansPublished` | crates/soma-generation/src/store.rs:149-199 | in every interleaving, with any staged bytes and faults, a publisher that reports success has made its own second opening of its name at an instant when that name resolved to bytes of its digest and size |
| `Publication.ExistingContentsNeverReplaced` | crates/soma-generation/src/store.rs:149-179 | a step never rebinds a name or changes bytes; a name disappears only when the creator of that very link undoes it |
| `Publication.BytesNeverChange` | crates/soma-generation/src/store.rs:149-172 | over any continuation of a run the bytes of an inode stay the same |
| `Publication.StepKeepsInv` | crates/soma-generation/src/store.rs:149-199 | every step keeps links, inodes and publisher phases consistent |
| `Publication.RunKeepsInv` | crates/soma-generation/src/store.rs:149-199 | so does every run |
| `Publication.WitnessedAlways` | crates/soma-generation/src/store.rs:181-199 | a publisher that is reading holds the inode its own opening found under the name, and one that has accepted made its second opening while the blob was published |
| `Publication.AcceptedBlobNeverRemoved` | crates/soma-generation/src/store.rs:149-199 | without faults at publishers of that digest and without a rival, one that stages right bytes but expects another size, an accepted blob is published for ever |
| `Publication.PublishedStays` | crates/soma-generation/src/store.rs:149-179 | under the same conditions what is published at one instant stays published; an observer that expects another size does no harm |
| `Publication.DecidedLinkStays` | crates/soma-generation/src/store.rs:149-179 | once its creator has accepted a link, no continuation removes it, faults or not |
| `Publication.UndecidedLinkCanGo` | crates/soma-generation/src/store.rs:149-179 | while its creator has not accepted it, some continuation removes it |
| `Publication.RemovableIffCreatorUndecided` | crates/soma-generation/src/store.rs:149-179 | a published name can still be lost if and only if the publisher that created the link has not yet accepted it |
| `Publication.SafeLinkStays` | crates/soma-generation/src/store.rs:149-179 | a link whose creator has accepted it, or is still to judge bytes it will find good, survives every continuation in which that creator meets no fault |
| `Publication.DoomedLinkGoes` | crates/soma-generation/src/store.rs:149-179 | a link whose creator is undoing it, or will not find the bytes good, is removed by the remaining steps of that creator alone, without a fault |
| `Publication.RemovableWithoutFaultsIffDoomed` | crates/soma-generation/src/store.rs:149-179 | some continuation without faults removes a name if and only if its creator is undoing it, or is undecided and the bytes are not those of its descriptor |
| `Publication.RunKeepsHonest` | crates/soma-generation/src/store.rs:149-199 | a publisher without faults undoes only a link whose bytes do not fit its descriptor, and accepts its own link only if they do |
| `Publication.LossIffCreatorExpectsAnotherSize` | crates/soma-generation/src/store.rs:149-199 | after any run without faults at that digest, a published blob can still be removed without faults if and only if the creator of its link expects another size |
| `Publication.ObserverAccepts` | crates/soma-generation/src/store.rs:149-199 | while a blob is published, a publisher that did not create the link and is still at work is led to success by its own steps, with every link and creator as before |
| `Publication.RivalCanRemove` | crates/soma-generation/src/store.rs:149-199 | a rival links the right bytes, the other publisher accepts, and the rival removes the link, without a fault |
| `Publication.AcceptedCanBeLostIffRival` | crates/soma-generation/src/store.rs:149-199 | from any initial store, some run without faults loses a blob that publisher has accepted if and only if there is a rival: another publisher of the digest, staging bytes of that digest and size, that expects another size |
| `Publication.AcceptedBlobCanBeLost` | crates/soma-generation/src/store.rs:149-179 | two concrete stores in which a blob accepted by one publisher is removed by its creator: with sizes that disagree and no fault at all, and after a fault |
| `Manifest.DecodeInvertsEncode` | crates/soma-jail/src/manifest.rs:147-216 | a text decodes to a manifest if and only if the manifest is structurally valid and the text is its encoding |
| `Manifest.New` | crates/soma-jail/src/manifest.rs:147-167 | accepts exactly 1 to 60 roles with one control role and at most one KVM and one TAP role |
| `Manifest.FromTokenInvertsToken` | crates/soma-jail/src/manifest.rs:74-105 | a token names a role if and only if it is the token of that role |
| `Manifest.ReadRolesInvertsTokens` | crates/soma-jail/src/manifest.rs:197-216 | a list of tokens reads as a role list if and only if it is the tokens of that list |
| `Separated.SplitJoin` | crates/soma-jail/src/manifest.rs:197-216 | joining parts without separators and splitting again gives back the parts |
| `Separated.JoinSplit` | crates/soma-jail/src/manifest.rs:210-216 | splitting and joining gives back the text |
| `Descriptors.LaunchSealed` | crates/soma-jail/src/descriptors.rs:122-242 | from any launcher table and any refusals of the kernel: not planned exactly if a relocation is refused, else not sealed exactly if a call of the child is, else refused exactly if some resource is unsuitable, else running with exactly the intended file in each slot, nothing else and the exact count; the launcher's own table is as before on every exit |
| `Descriptors.CheckAndExec` | crates/soma-jail/src/descriptors.rs:213-242 | a correctly sealed child runs if and only if every resource can serve its role, and its second verification, with the manifest it decodes, never fails |
| `Descriptors.SealChild` | crates/soma-jail/src/process/child.rs:137-197 | planning, cloning any table, dropping the plan and sealing the clone succeeds exactly if the kernel refuses none of the calls, and leaves exactly the intended table; the launcher's table is as before either way |
| `Descriptors.PrepareSources` | crates/soma-jail/src/process/prepare.rs:74-123 | standard streams, roles in manifest order, executable and report, each with its slot and close-on-exec flag |
| `Descriptors.NewSealPlan` | crates/soma-jail/src/descriptors.rs:130-165 | succeeds exactly if the range fits and no duplication is refused: every source is then relocated above the sealed range and nothing else changes; a plan that fails leaves no descriptor behind |
| `Descriptors.DroppingRestores` | crates/soma-jail/src/process.rs:190-195 | closing the relocated sources of a plan gives back the table from before the plan |
| `Descriptors.ApplyInChild` | crates/soma-jail/src/descriptors.rs:179-202 | succeeds exactly if the slots fit and no call is refused; the table is then the plan's duplications followed by closing everything above |
| `Descriptors.SourcesSurvive` | crates/soma-jail/src/descriptors.rs:179-202 | no duplication overwrites a source that is still needed |
| `Descriptors.SealedTableIsExact` | crates/soma-jail/src/descriptors.rs:179-202 | with distinct slots covering the range, exactly the range is open and each slot holds the file of its one source |
| `Descriptors.PlanSealsIntended` | crates/soma-jail/src/descriptors.rs:130-202 | a plan made of the prepared sources seals the intended table |
| `Descriptors.VerifySealedTable` | crates/soma-jail/src/descriptors.rs:213-242 | accepts with the exact count if and only if no slot gives cause for complaint, else reports the lowest complaint |
| `Descriptors.LauncherAcceptsIffSuitable` | crates/soma-jail/src/descriptors.rs:213-242 | launcher verification of a sealed table accepts exactly suitable resources |
| `Descriptors.SealedAcceptsAfterExec` | crates/soma-jail/src/descriptors.rs:213-242 | what the launcher accepted is accepted after exec has closed the close-on-exec slots |
| `Platform.MergeIsJoin` | crates/soma-generation/src/oci.rs:154-177 | merging two claims is their join, defined exactly when they have an upper bound |
| `Platform.MergeIsAssociative` | crates/soma-generation/src/oci.rs:154-177 | merging three claims gives the same, or fails the same, however they are grouped |
| `Platform.MergeCommutes` | crates/soma-generation/src/oci.rs:154-177 | merging in either order gives the same, or fails the same |
| `Platform.MergeAllIsJoin` | crates/soma-generation/src/traversal.rs:157-173 | folding claims along a path gives their join, defined exactly when there is an upper bound |
| `Platform.MergeAllDefinedIffPairwise` | crates/soma-generation/src/traversal.rs:157-173 | the fold is defined if and only if every two claims agree |
| `Platform.MergeAllIgnoresOrder` | crates/soma-generation/src/traversal.rs:157-173 | order and repetition of claims make no difference, to failure either |
| `Platform.EarlyRejectionIsExact` | crates/soma-generation/src/traversal.rs:147-190 | a manifest is dropped before its config is read if and only if no config could make it match |
| `Traversal.TraversalIsExact` | crates/soma-generation/src/traversal.rs:29-145 | candidates are distinct, each stands at the end of a real acyclic path of fewer than eight indexes, together they are exactly the reachable manifests to keep, and the count is the size of the unfolded graph within the limit |
| `Traversal.TraverseSucceedsIffClear` | crates/soma-generation/src/traversal.rs:29-145 | the walk succeeds if and only if the graph is clear: acyclic and shallow paths, valid readable entries, claims and mentions that agree, and few enough entries |
| `Traversal.WalkCovers` | crates/soma-generation/src/traversal.rs:64-115 | every reachable manifest to keep is among the candidates |
| `Traversal.WalkAddsFromGraph` | crates/soma-generation/src/traversal.rs:64-145 | every new candidate comes from the graph, and digests stay distinct |
| `Traversal.WalkCounts` | crates/soma-generation/src/traversal.rs:64-95 | the descriptor count grows by exactly the entries of the unfolded graph |
| `Traversal.ClearWalkSucceeds` | crates/soma-generation/src/traversal.rs:64-145 | on a clear graph the walk does not fail |
| `Traversal.PathsAreShortAndAcyclic` | crates/soma-generation/src/traversal.rs:202-213 | every path of a clear graph is acyclic and shorter than the depth limit |
| `Traversal.FoldDeclaredPlatform` | crates/soma-generation/src/traversal.rs:157-173 | the loop gives the fold of the claims along the path, failing on a conflict |
| `Traversal.Walker.Walk` | crates/soma-generation/src/traversal.rs:64-95 | the mutable walk does what its outcome function says, and terminates on any graph |
| `Traversal.Walker.Visit` | crates/soma-generation/src/traversal.rs:64-95 | one entry: counting, limits, validation, descending or recording |
| `Traversal.Walker.WalkIndex` | crates/soma-generation/src/traversal.rs:97-115 | rejects a repeated index, opens it and walks it one level deeper |
| `Traversal.Walker.AddCandidate` | crates/soma-generation/src/traversal.rs:117-145 | adds a new digest, accepts an agreeing repetition, refuses a disagreeing one |
| `Selection.PruningPreservesSelection` | crates/soma-generation/src/traversal.rs:147-190 | whenever the search without pruning gets through, the pruned one gets through with the same image, none, or ambiguity |
| `Selection.WalkThenPrune` | crates/soma-generation/src/traversal.rs:64-154 | walking with the test gives the candidates of walking without it, filtered |
| `Selection.MatchesSurviveFilter` | crates/soma-generation/src/verify.rs:24-54 | verifying filtered candidates finds the same images as verifying all |
| `Selection.PlatformVerifierDropsOnlyMisses` | crates/soma-generation/src/verify.rs:56-121 | a manifest the test drops verifies to no match or an error, and the count only bounds |
| `Selection.SelectedIsTheOnlyMatch` | crates/soma-generation/src/verify.rs:24-54 | a selected image belongs to a candidate, satisfies the selection and is the only match |
| `Selection.ExactSelectionIsUnambiguous` | crates/soma-generation/src/traversal.rs:147-154 | selecting by digest finds at most one candidate, is never ambiguous, fails with not-found if no such manifest is reachable, and a selected image has that digest and platform |
| `Selection.ExactWalk` | crates/soma-generation/src/traversal.rs:64-154 | a successful walk by digest finds exactly the manifest of that digest if one is reachable, and nothing otherwise |
| `Selection.SelectImageLoop` | crates/soma-generation/src/verify.rs:24-54 | the loop over candidates selects what the function over their matches selects, errors and ambiguity included |
| `Selection.VerifyLayersLoop` | crates/soma-generation/src/verify.rs:128-146 | the loop over layers pushes exactly the verified layers, or stops at the first that fails |
| `Correlator.IdentifiersNeverReused` | benchmarks/local_alpha/mcp_stdio.py:214-218 | in every interleaving two calls never have the same identifier |
| `Correlator.ReturnsItsOwnFrame` | benchmarks/local_alpha/mcp_stdio.py:182-207 | a call that returns a frame returns one whose identifier equals its own in Python's sense; as JSON too unless `true` answers call 1 |
| `Correlator.BooleanAnswersFirstCall` | benchmarks/local_alpha/mcp_stdio.py:233-260 | a concrete session in which a frame with identifier `true` is delivered to call 1 |
| `Correlator.MatchingFrameIsDelivered` | benchmarks/local_alpha/mcp_stdio.py:233-260 | whatever other threads do before and after the reader puts it, a frame read for a waiting call is in its mailbox or is what it returns, unless the call gave up before the put |
| `Correlator.DuplicateFailsReader` | benchmarks/local_alpha/mcp_stdio.py:233-260 | a second frame for a waiting call with mail: whatever other threads do before the put, it brings the reader down if and only if the call has not taken the first by then, and the first is then still there |
| `Correlator.FailureReachesEveryRegisteredCall` | benchmarks/local_alpha/mcp_stdio.py:233-260 | when the reader fails, exactly the calls registered at that moment are told, and each visited one has mail or an outcome |
| `Correlator.LateCallsAreNeverTold` | benchmarks/local_alpha/mcp_stdio.py:182-260 | a call not yet registered when the failing reader takes its snapshot never gets mail, and can only end in a timeout or a failed write |
| `Correlator.LateCallHappens` | benchmarks/local_alpha/mcp_stdio.py:182-260 | a concrete session in which a call registers after the snapshot and times out |
| `Correlator.EndOfStreamTellsNobody` | benchmarks/local_alpha/mcp_stdio.py:233-241 | once the stream has ended, no call without mail gets any: each can only time out or fail to write, in every run |
| `Correlator.CallAfterEndHappens` | benchmarks/local_alpha/mcp_stdio.py:182-241 | a concrete session in which the stream ends and a call then times out |
| `Correlator.MailPreventsTimeout` | benchmarks/local_alpha/mcp_stdio.py:182-207 | a call with mail in its mailbox never ends in a timeout |
| `Correlator.PendingAreActive` | benchmarks/local_alpha/mcp_stdio.py:182-207 | the pending table holds exactly the registered calls |
| `Correlator.StepKeepsInv` | benchmarks/local_alpha/mcp_stdio.py:182-260 | every step of callers and reader keeps the correlation invariant |
| `Correlator.RunKeepsInv` | benchmarks/local_alpha/mcp_stdio.py:182-260 | so does every run |
| `Jail.ReconcileNamesWhatIsOwned` | crates/soma-jail/src/reconcile.rs:141-186 | residuals name exactly what is still owned, which is what was owned and not reported gone |
| `Jail.ReleasedIffNothingOwned` | crates/soma-jail/src/reconcile.rs:141-186 | a pass reports everything released if and only if nothing is owned; over nothing owned it does nothing |
| `Jail.ReapedChildIsLeftAlone` | crates/soma-jail/src/reconcile.rs:141-186 | a child recorded as reaped, or none at all, is never signalled or waited for over any number of passes |
| `Jail.ChildAddressedUntilGone` | crates/soma-jail/src/reconcile.rs:141-186 | from any ledger, a pass addresses the child if and only if it is owned and unreaped and no earlier pass was told that it is gone |
| `Jail.GoneChildAddressedIffAlreadyReaped` | crates/soma-jail/src/process.rs:131-143 | a child found gone when a launch failed is addressed again in the cleanup if and only if it had already been reaped elsewhere |
| `Jail.ReapedElsewhereIsSignalled` | crates/soma-jail/src/process.rs:131-143 | the failing case: with the answer that the child had already been reaped, the cleanup signals it |
| `Jail.LaunchAddressesGoneChildIff` | crates/soma-jail/src/process.rs:92-226 | in every world a launch addresses a child that a wait of its own found gone if and only if it asked whether the child had died and was answered that it was already reaped, which is then its first action |
| `Jail.PassesLeaveGoneAlone` | crates/soma-jail/src/reconcile.rs:141-186 | passes alone, however answered, never address a child that a wait of theirs found gone, and never begin with a wait |
| `Jail.SettlesIff` | crates/soma-jail/src/process.rs:109-129 | polling ends well if and only if some reading is settled and all before it are readable and in time |
| `Jail.RepeatedPassesShrink` | crates/soma-jail/src/reconcile.rs:141-186 | ownership only shrinks over repeated passes, and a pass that succeeds everywhere releases the rest |
| `Jail.JailLedger.Reconcile` | crates/soma-jail/src/reconcile.rs:141-186 | new ownership, disposition and actions are those of the pass with the answers of the world; whatever exists stays accounted for and is reported |
| `Jail.JailLedger.ReleaseProcess` | crates/soma-jail/src/reconcile.rs:141-186 | kill, reap and forget the process, or name it as a residual |
| `Jail.JailLedger.ReleaseCgroup` | crates/soma-jail/src/reconcile.rs:60-82 | drain and remove the leaf, or name it as a residual |
| `Jail.JailLedger.ReleaseRoot` | crates/soma-jail/src/reconcile.rs:52-58 | remove the jail root, or name it as a residual |
| `Jail.JailLedger.Drop` | crates/soma-jail/src/reconcile.rs:220-228 | a ledger that owns anything makes one more pass, one that owns nothing does nothing; what is owned only shrinks |
| `Jail.Launch` | crates/soma-jail/src/process.rs:151-226 | the launch ends as the world decides: failure, ledger and actions are those of the launch function; a failed one names every resource of its own that still exists, a successful one returns a ledger owning all three |
| `Jail.Build` | crates/soma-jail/src/process.rs:151-226 | the ledger and the success of the steps up to the observed child; each resource is recorded before the next is created, so every exit has everything accounted for |
| `Jail.Release` | crates/soma-jail/src/process.rs:95-143 | succeeds if and only if the child is released, reports no failure and settles; otherwise, if it was polled, the world is asked whether it died and the answer is recorded as died_or does |
| `Jail.DiedOr` | crates/soma-jail/src/process.rs:131-143 | waits for the child if there is one, with the answer of the world on record, and notes the reap only if the wait saw it exit |
| `Jail.Fail` | crates/soma-jail/src/process.rs:131-226 | one reconciliation and the drop of the ledger, as the failure function says; the reported disposition names whatever still exists, and is clean only if nothing does |
| `Lifecycle.MarkerMatchesLedger` | crates/soma-guest-agent/src/repair.rs:203-265 | in every typed run the marker equals the ledger's phase, the chain is a prefix of the one order, and an `Order` fault needs 2^64-1 commands |
| `Lifecycle.CallKeepsInv` | crates/soma-guest-agent/src/repair.rs:101-225 | every typed call keeps that |
| `Lifecycle.MethodsAreThePermittedSteps` | crates/soma-guest-agent/src/repair.rs:61-79 | the typed methods and the runtime relation allow the same steps, poisoning aside |
| `Lifecycle.BootReachesReadyIffAllSucceed` | crates/soma-guest-agent/src/main.rs:128-175 | boot is a typed run that reaches Ready exactly when every stage succeeds, else ends poisoned by the first failed stage |
| `Lifecycle.CommandsCountExecutes` | crates/soma-guest-agent/src/lifecycle.rs:121-178 | over any requests the command count grows by exactly the Execute requests taken up, or stops at 2^64-1 with an `Order` fault |
| `Lifecycle.QuietRequestsLeaveNoTrace` | crates/soma-guest-agent/src/lifecycle.rs:152-170 | answered file and terminal requests can be removed anywhere without changing the end |
| `Lifecycle.LastRequestDecidesTheEnding` | crates/soma-guest-agent/src/lifecycle.rs:121-178 | power-off only on a shutdown request, with the chain completed by Stopping; any other ending carries the fault of the request that ended it |
| `Lifecycle.Ledger.Advance` | crates/soma-guest-agent/src/repair.rs:101-114 | advances as the order permits and counts commands, or refuses and changes nothing |
| `Lifecycle.Ledger.Step` | crates/soma-guest-agent/src/repair.rs:203-225 | a failed stage or a refused advance poisons, anything else moves the marker |
| `Lifecycle.Ledger.Serve` | crates/soma-guest-agent/src/lifecycle.rs:121-178 | the loop leaves the controller and ending of the function over its requests |
| `LayerPaths.NormalizePath` | crates/soma-generation/src/layer_tar.rs:122-144 | the loop gives the significant components joined, a lone dot for none, and the errors in order |
| `LayerPaths.NormalizationIsIdempotent` | crates/soma-generation/src/layer_tar.rs:122-144 | normalizing twice is normalizing once |
| `LayerPaths.EqualIffSameComponents` | crates/soma-generation/src/layer_tar.rs:122-144 | two paths normalize equally if and only if they have the same significant components |
| `LayerPaths.NormalizedStaysBeneath` | crates/soma-generation/src/layer_tar.rs:122-144 | a normalized path is relative, nonempty and no longer, without empty, parent or inner dot components |
| `LayerPaths.AcceptedIffAdmissible` | crates/soma-generation/src/layer_tar.rs:92-119 | entries are accepted if and only if each is acceptable, no two share a logical path, and all fit the budget |
| `LayerPaths.AcceptanceIsCounted` | crates/soma-generation/src/layer_tar.rs:92-119 | entry count, budget and path set are exactly those of the accepted entries |
| `LayerPaths.PathPolicy.Observe` | crates/soma-generation/src/layer_tar.rs:92-119 | one entry: the new policy and budget, or the error and no change |
| `LayerPaths.ValidationBudget.Observe` | crates/soma-generation/src/layer_tar/budget.rs:34-52 | charges entries and bytes within the ceilings, or refuses and changes nothing |
| `LayerTar.Validate` | crates/soma-generation/src/layer_tar.rs:55-83 | the streaming validation ends exactly as the function of source bytes, limit, replies, budget and parser steps says: result, bytes taken, reads made and budget; on success with the digest and size of the whole source |
| `LayerTar.ValidatesIff` | crates/soma-generation/src/layer_tar.rs:55-83 | for all replies, buffer sizes and short reads a layer validates if and only if every read of the parser is answered with bytes or interrupted where it retries, the parser is content, the entries are admissible, what follows the consumed bytes is a zero tail of whole blocks within the limit, and the reads that drain it all deliver: a condition on the inputs alone |
| `LayerTar.ValidatedIsWhole` | crates/soma-generation/src/layer_tar.rs:77-82 | on success all of the source was handed on, within the limit, and every entry counted |
| `LayerTar.RefusedBecause` | crates/soma-generation/src/layer_tar.rs:55-83 | every refusal has its reason: the last read failed and the error is Io, the source is longer than the limit, the steps are refused for what they are, or the tail is |
| `LayerTar.BrokenReadIsIo` | crates/soma-generation/src/layer_tar.rs:250-258 | a read that fails for good, whenever it is made, always ends the validation with Io |
| `LayerTar.FlagTellsTheTruth` | crates/soma-generation/src/layer_tar.rs:180-184 | however a validation ends, the source is flagged as failed exactly if some read failed |
| `LayerTar.ValidateTail` | crates/soma-generation/src/layer_tar.rs:156-178 | the loop over chunks ends as the tail function says: result, bytes and reads |
| `LayerTar.TailIsVerdict` | crates/soma-generation/src/layer_tar.rs:156-178 | read in whatever chunks come, a tail has the verdict of the tail in one piece, or Io exactly when the last read failed; all reads before it delivered |
| `LayerTar.TailAcceptedIff` | crates/soma-generation/src/layer_tar.rs:156-178 | a tail is accepted if and only if it is good in one piece and every read that drains it delivers |
| `LayerTar.TailVerdict` | crates/soma-generation/src/layer_tar.rs:156-178 | accepts if and only if the rest is all zero, within the limit, at least 512 bytes and a multiple of 512 |
| `LayerTar.ReadZeros` | crates/soma-generation/src/layer_tar.rs:162-173 | one chunk of the tail: zero bytes counted, or the error it deserves |
| `LayerTar.ReadArchive` | crates/soma-generation/src/layer_tar.rs:62-75 | the entries loop stops where the function over the steps stops, with its policy, stream and error |
| `LayerTar.Take` | crates/soma-generation/src/layer_tar.rs:66-74 | one step: a read that the parser survives only if it delivers or is interrupted and retried, an entry observed, or a complaint |
| `LayerTar.CompleteArchive` | crates/soma-generation/src/layer_tar.rs:62-75 | an archive read to its end had every read tolerated and every entry accepted, and consumed exactly what the replies delivered |
| `LayerTar.StepsAcceptedIff` | crates/soma-generation/src/layer_tar.rs:62-75 | the parser's steps are accepted if and only if none is a complaint and all entries are accepted |
| `LayerTar.LayerStream.Read` | crates/soma-generation/src/layer_tar.rs:213-248 | new stream state and answer are those of the read function: the next bytes of the source, at most the limit in all, hashed as handed on; the limit flag rises only if the source is longer |
| `LayerTar.LayerStream.Probe` | crates/soma-generation/src/layer_tar.rs:219-232 | at the limit, one more byte tells the end of the source from a longer one, for a buffer of any size |
| `LayerTar.LayerStream.Fill` | crates/soma-generation/src/layer_tar.rs:233-246 | below the limit, as much as buffer and limit allow |
| `OutputStream.DeliveryIsExact` | crates/soma-guest-agent/src/executor/pipes.rs:165-197 | for any interleaving of the pipes: delivered prefixes, together the smaller of what was read and the allowance, the limit reported exactly if more was read, and at most one byte more |
| `OutputStream.StepKeepsExact` | crates/soma-guest-agent/src/executor/pipes.rs:165-197 | one read keeps that |
| `OutputStream.Pump` | crates/soma-guest-agent/src/executor/pipes.rs:165-197 | reading, reserving and delivering through the budget object does exactly that |
| `OutputStream.OutputBudget.Reserve` | crates/soma-guest-agent/src/output.rs:68-84 | admits what fits, and reports the limit exactly if the read exceeds what is left |
| `OutputStream.OutputBudget.Room` | crates/soma-guest-agent/src/output.rs:58-62 | never nothing, at most a chunk, and at most one byte past the allowance |
| `KernelLayout.LayoutAcceptedIffDisjoint` | kernel/verify-pvh.py:95-114 | accepted if and only if there are loads, all in bounds, the nonempty ones pairwise disjoint |
| `KernelLayout.GoodLayoutPermuted` | kernel/verify-pvh.py:95-114 | a good layout stays good in any order of its segments |
| `KernelLayout.NeighboursSuffice` | kernel/verify-pvh.py:107-113 | in address order, disjoint neighbours are equivalent to pairwise disjointness |
| `KernelLayout.SortedNeighboursSuffice` | kernel/verify-pvh.py:107-113 | sorting and looking at neighbours decides whether any two segments overlap |
| `Sorting.PairwiseSorted` | kernel/verify-pvh.py:107-113 | a symmetric relation between all elements, such as being disjoint, is the same before and after sorting |
| `Sorting.PairwisePermuted` | kernel/verify-pvh.py:107-113 | and in any other order of the same elements |
| `Sorting.SortedIsOrdered` | kernel/verify-pvh.py:107-107 | the stable sort orders by any total order |
| `KernelLayout.EntryAcceptedIffBacked` | kernel/verify-pvh.py:156-166 | on an accepted layout the entry is accepted exactly if an executable segment holds it in its file-backed part, and that segment is returned |
| `KernelLayout.EntryCheckIgnoresOrder` | kernel/verify-pvh.py:156-166 | reordering the segments does not change the answer |
| `KernelNotes.LaidOutNotesAreScanned` | kernel/verify-pvh.py:117-132 | the scan returns exactly the notes laid out, whatever the padding holds |
| `KernelNotes.ScannedNotesAreLaidOut` | kernel/verify-pvh.py:117-132 | a scan that succeeds has read such a layout |
| `KernelNotes.ScanInvertsEncode` | kernel/verify-pvh.py:117-132 | scanning padded notes that were written, with any too-short tail, returns them |
| `KernelNotes.ScanNotes` | kernel/verify-pvh.py:117-132 | the cursor loop computes the scan, or fails on a truncated note |
| `KernelNotes.FindPvhEntry` | kernel/verify-pvh.py:135-153 | the loops over segments and notes find the entry of the collected matches |
| `KernelNotes.EntryIsTheOnlyOne` | kernel/verify-pvh.py:135-153 | an entry is found if and only if exactly one note is an entry note and its descriptor is that address |
| `KernelNotes.AcceptedIffSound` | kernel/verify-pvh.py:169-176 | an image is accepted with an entry and a segment if and only if layout, notes and segment are sound |
| `BurstRun.CompletedRunValidates` | benchmarks/local_alpha/burst/validation.py:108-136 | every completed run passes its reader with attribution required, accepted plus failed is attempted, and the breakdown adds up |
| `BurstRun.RunBurst` | benchmarks/local_alpha/burst/run.py:24-68 | records of every slot in order with repetitions 1 to N, and the summary of exactly those samples |
| `BurstRun.WriteBurst` | benchmarks/local_alpha/burst/run.py:44-64 | the records of one burst are appended with their repetition, burst and slot numbers, earlier records unchanged |
| `BurstRun.OneBurst` | benchmarks/local_alpha/burst/run.py:71-105 | one sample per slot, in the order of the assignments |
| `BurstRun.BreakdownIsExact` | benchmarks/local_alpha/burst/attribution.py:97-133 | every failure has a row; each row counts the failures of its reason and operation, and holds the three details they reported most often with exact counts, leaving out none that was reported more often; rows are distinct and in descending order, and the counts add up |
| `BurstRun.FailureBreakdown` | benchmarks/local_alpha/burst/attribution.py:97-133 | the counting loops and the loop over the sorted counts give that breakdown of all failures |
| `Counting.RankedIsExact` | benchmarks/local_alpha/burst/attribution.py:105-118 | counting keys one by one and sorting gives one exact entry per key that occurs, in order, adding up to the number of keys |
| `Counting.TopIsExact` | benchmarks/local_alpha/burst/attribution.py:124-129 | the first n of such a ranking are exact, and a key left out occurs no more often than any of them |
| `BurstRun.SummaryAddsUp` | benchmarks/local_alpha/burst/run.py:108-146 | accepted plus failed equals attempted |
| `BurstRun.WrittenSamplesAreReadable` | benchmarks/local_alpha/burst/validation.py:126-134 | no written sample gives the reader cause for complaint |
| `BurstRun.RepetitionsCover` | benchmarks/local_alpha/burst/validation.py:123-125 | the sorted repetitions are exactly 1 to N |
| `BurstSlot.EverySampleIsWellAttributed` | benchmarks/local_alpha/burst/slot.py:89-198 | for all process outcomes: successful if and only if no failure, no blank detail, no operation failing twice, and always a destroy |
| `BurstSlot.Slot.Execute` | benchmarks/local_alpha/burst/slot.py:152-198 | the evidence filled in step by step is that of the outcomes |
| `BurstSlot.Slot.Invoke` | benchmarks/local_alpha/burst/slot.py:115-150 | success, response, detail, stages and observations of one process, an exit code of None included |
| `BurstSlot.Slot.RecordReceipt` | benchmarks/local_alpha/burst/slot.py:243-274 | a launch notes what it observed; milestones become the stages of the operation, or are noted as malformed |
| `Milestones.Parse` | benchmarks/local_alpha/metrics.py:41-76 | comparing each milestone with the one before it accepts exactly the nonempty lists of known kinds in which every milestone follows all before it in rank and time |
| `BurstSlot.Slot.ExecStep` | benchmarks/local_alpha/burst/slot.py:201-232 | the command judged: failure, evidence and success |
| `BurstSlot.ProcessDetail` | benchmarks/local_alpha/burst/attribution.py:39-56 | a detail that is not blank and has at most 160 characters |
| `BurstSlot.BoundedIsNotBlank` | benchmarks/local_alpha/burst/attribution.py:90-94 | collapsing and cutting a detail that starts visibly leaves something visible |
| `Artifacts.AdmittedIffDistinctSumFits` | crates/soma-generation/src/publish.rs:178-204 | source reservations are admitted if and only if sizes agree per digest and the sum over distinct digests fits the limit |
| `Artifacts.AdmissionIgnoresOrderAndRepetition` | crates/soma-generation/src/publish.rs:178-204 | neither order nor repetition matters, to the total either |
| `Artifacts.TotalsAreOverDistinctDigests` | crates/soma-generation/src/publish.rs:178-208 | after any successful reservations the total is the sum over the distinct digests, and exactly those are counted |
| `Artifacts.Ledger.Reserve` | crates/soma-generation/src/publish.rs:178-204 | new totals, sizes and result of one reservation, of either kind |
| `Percentile.NearestRankIsLeast` | benchmarks/local_alpha/statistics.py:35-43 | the percentile is the least sample with at least that share of the samples at or below it |
| `Percentile.NearestRankIsMonotone` | benchmarks/local_alpha/statistics.py:35-43 | a higher percentile is never a smaller value |
| `Percentile.RankFormulasAgree` | benchmarks/competitive/isorun_create_latency.py:59-65 | the rounded-up and the negated-floor rank are the same, and within the samples |

## Left out

- Cryptography: Noise, X25519, BLAKE2s and SHA-256 are an ideal cipher log and arbitrary functions.
- Publication and Correlator are state machines on values, not objects with methods, because their threads interleave between system calls and locked regions; update in place is the replacement of the state.
- Publication takes the bytes of a linked inode as fixed, as the store's exclusive write authority provides, and leaves out staging before the link and the platforms without read-only permissions.
- Correlator leaves out JSON text, notifications, process start and shutdown; the body of a frame is a number.
- Traversal, Selection: documents are values that a blob may hold, not JSON text; blob digests are trusted as `layout.rs` establishes them, and the phase part of an error is dropped.
- Jail: `recover` after a crash, and what a cgroup leaf is made of; waiting with backoff is one call with one answer.
- Descriptors: mounts, identity, rlimits and seccomp between sealing and exec do not touch the table and are not modelled.
- Lifecycle: what repair stages and commands do is their outcome only; a failure of early initialisation is a poisoning before the first stage. Nothing is stated about poisoning a poisoned controller.
- LayerTar: the tar parser is any sequence of reads, entries and complaints, each read one call; which interrupted reads it survives is part of the sequence. `BoundedReader` in `tar_preflight.rs` is the same bounded read without the hash and has no second model; the extension policy of that file is left out.
- OutputStream: a sink that fails, the discarding after the limit, and `terminal_status`, a finite table of cases.
- KernelNotes keeps a note's name as stored and strips its zeros where the name is compared; parsing of the ELF and program headers is left out.
- BurstRun: shape disagreements, identities, timestamps and the metadata record; the slots of a burst are taken one after another because they share nothing.
- BurstRun.WriteBurst: requires that the records so far belong to the samples so far, as its caller keeps them.
- BurstSlot: JSON text is already decoded; `milestones` that are not a list count as an empty one, which is malformed too.
- Percentile: `summarize` with its in-place sort, the median and the success rate, which are floating-point summaries; samples are sorted on values.
- The host allocator, launch page, virtio queues, seccomp assembler, layer normalization, and the HTTP, CLI and MCP front ends.
