# Bloom runtime: verified model

This project models the parts of the Bloom runtime whose correctness is not
visible in any one function, and proves what they keep. Bloom leases virtual
machines to wallets: a control plane admits, starts and stops them, a node agent
relays files, jobs, shells and network traffic, and a guest agent inside each
machine serves them. The files follow the components:

| files | component |
|---|---|
| `Lifecycle*.dfy`, `WorkspaceService.dfy` | the workspace protocol between the control plane's rows, its memory and an unreliable node agent |
| `ClientHello.dfy`, `TlsInspector.dfy`, `TlsTheorems.dfy`, `TlsVerdicts.dfy`, `ClientHelloReceiver.dfy` | the TLS ClientHello inspector of the egress proxy |
| `SshLeases.dfy`, `SshAuthority.dfy`, `SshLeaseManager.dfy` | the SSH gateway's table of leases |
| `LogRing.dfy`, `Jobs.dfy`, `JobOutcomes.dfy`, `JobEngine.dfy` | the guest's log ring, its job table, and the terminal history of the C agent |
| `FileTree.dfy`, `Base64.dfy`, `QuotaScan.dfy`, `WorkspaceFiles.dfy`, `FileRefusals.dfy`, `QuotaTheorems.dfy`, `GuestWorkspace.dfy` | the guest's file server, the reach of its quota, and the chunk adapter in front of it |
| `DataFiles.dfy`, `DataFileCalls.dfy`, `DataFileStore.dfy` | the development runtime's file store and its chain of promises |
| `DataVolume.dfy`, `VolumeStore.dfy` | the lock-free publication of a disk image |
| `GuestProtocol.dfy`, `GuestChannel.dfy`, `GuestReplies.dfy`, `JsonText.dfy`, `JsonRoundTrip.dfy`, `GuestMessages.dfy` | the JSON-lines protocol between node agent and guest |
| `Texts.dfy`, `Ipv4Addresses.dfy`, `Ipv6Addresses.dfy`, `Ipv6TextForms.dfy`, `EgressPolicy.dfy`, `EgressRanges.dfy` | address texts, CIDR tests and the approval of DNS answers |
| `Sha256.dfy`, `Sha256Constants.dfy` | the guest's SHA-256 |
| `Paths.dfy` | the path validators |
| `Basics.dfy` | shared vocabulary |

`dafny verify dfyconfig.toml` checks everything.

**How protocols are modelled.** A protocol is a state, a datatype of actions and
a total function `Next` that leaves the state alone when the action is not
enabled; `Execute` runs a list of actions. One action is the code between two
awaits, and agents, file systems and timers are actions with arbitrary outcomes.
A theorem about every list of actions is therefore about every interleaving. Next to
each such model stands a class with the source's own fields; its methods are the
source's code between awaits, and each is proved to make the corresponding step.
Where the source is a plain loop or an in-place algorithm, the method is proved
against a function whose properties are the theorems.

What a step does is also stated without its own function, by theorems whose names end in
`Exactly` and their like: which message, request or byte string leads to which change, in
both directions, over runs where the past decides (`EveryChangeHasItsCause`,
`StreamsAreAuthorised`, `OutcomesAreDeserved`, `EveryHelloIsAnswered`, `ApprovedExactly`).

**Assumptions.** The clock does not go backwards. The node agent applies requests in
the order they were issued (`InIssueOrder`); replies and errors may come at any time
or never. That alone bounds the live machines; nothing is assumed about when an
ambiguous create takes effect, and `OvertakingStrandsAMachine` shows that order is
needed. The framing and channel theorems hold for any JSON that is lossless and writes no
raw newlines; for the file and log messages the text and its reading are spelled out, and
are such a JSON (`MessagesAreLossless`). Host-name normalisation is a function of the name.

**What the proofs turned up.** These are properties of the code as it is.

- The architecture document draws an edge from provisioning to failed when a set-up
  fails, and from running to stopped. In the code a failed create leaves its row
  provisioning until a status check, and every stop goes through stopping. The model
  follows the code.
- A destruction whose reply fails or is forgotten in a restart may still take effect
  after the wallet has been released, under a workspace that has attached the volume
  since: an active row with no disk (`AnExampleLosesADisk`). That is the only way
  (`DisksAreSafeExactly`, `AbandonedExactlyByGivingUp`).
- A refused upload is not undone: after an accepted first chunk the beginning of the
  file is replaced, and even a refused first chunk leaves an empty file where there was
  none (`UndoneExactly`, `ARefusedUploadOverwrites`, `ARefusedUploadCreates`).
- The guest's quota can be passed. Its scan counts no file more than 33 names deep, and no
  more than 20000 files: `AnExampleOfDeepWrites`, `ACrowdPassesTheQuota`. Writes to
  shallower paths keep it while the files are fewer (`ShallowWritesKeepTheQuota`), and the
  excess is exactly what the scan misses (`AcceptedWriteAddsUp`, `ScanIsExact`).
- In a tree past that limit a delete can remove its file and still answer that a limit is
  exceeded (`DeleteAnswers`).
- A write of nothing beyond the end of a file is charged, and reported, as if it had
  extended the file (`ReportedUsageIsTrue`, `AnExampleOfAnEmptyWrite`).
- The status of a job whose launch failed breaks the control plane's own rules, and is
  the only one that does (`StatusRulesMeanLaunched`, `AnExampleOfARefusedStatus`).
- Over vsock, a reply that arrives in the same chunk as the handshake is lost if the two
  together exceed 128 bytes (`VsockReplySettles`, `AnExampleOfALostReply`). The request is written only after the
  handshake, so such bytes can come only from a peer that answers unasked.
- The node agent refuses uploads below a directory whose name begins with two dots,
  which every validator accepts (`ParentRefusedExactly`).

## Model

| member | source | states |
|---|---|---|
| LifecycleTheorems.LiveMachinesAreBounded | src/control/workspaces.ts:230-301 | After every run in which the agent applies requests in issue order, and whatever replies are lost or control-plane restarts happen: each live machine belongs to a provisioning, running or stopping row, and there are at most `maxRunning` of them |
| LifecycleTheorems.ClaimThenStop | src/control/workspaces.ts:77-83 | Wherever a row can be claimed that is the newest active one of its wallet, claim and owner stop leave the create and the stop waiting at the agent together |
| LifecycleTheorems.OvertakingStrandsAMachine | src/control/workspaces.ts:262-301 | The issue-order assumption is needed: an agent that takes the waiting stop before the create ends with a live machine for a stopped row |
| LifecycleTheorems.AdmissionLimitsHold | src/control/workspaces.ts:28-67 | At the end of every run and for every window start: at most `dailyPerWallet` and `dailyPerIp` creations in any closed 24 hours, active rows and queue within their limits, although maintenance deletes rows |
| LifecycleTheorems.VolumesAreSafe | src/control/workspaces.ts:197-211 | As the database records it, after every run: no active row references a destroyed volume, none is attached to a volume whose destruction is awaited, and each wallet has at most one undestroyed volume |
| LifecycleDisks.DisksAreSafeExactly | src/control/workspaces.ts:204-210 | At every point of a run no active row is attached to a volume whose disk is gone or about to go, if and only if the run never attaches a volume whose destruction was given up although it had taken effect or still could |
| LifecycleDisks.AbandonedExactlyByGivingUp | src/control/agent-client.ts:93-94 | A volume gets into that state in exactly one way: the reply of its destruction is a failure, or the control plane restarts, while the request waits at the agent or has been applied |
| LifecycleDisks.DisksAreSafe | src/control/workspaces.ts:204-210 | A run in which no destruction is given up like that keeps the disk of every active row |
| LifecycleDisks.IntactExactly | src/agent/firecracker-runtime.ts:125-130 | Intact means: no active row has lost its disk, and none would if the agent took any waiting request now |
| LifecycleDisks.DestroyedMeansErased | src/control/workspaces.ts:205-208 | Whatever fails, a volume recorded as destroyed has lost its disk at the agent |
| LifecycleDisks.GivingUpLosesADisk | src/control/workspaces.ts:204-210 | Whenever a destruction can be requested and the wallet could be admitted, giving up on the request, by failure or restart, lets the next workspace attach the volume and lose the disk |
| LifecycleDisks.AnExampleLosesADisk | src/control/workspaces.ts:204-210 | A concrete run of eight actions, in issue order, that ends with an active row on an undestroyed volume whose disk is gone |
| LifecycleDisks.DestroysSpareMachines | src/agent/firecracker-runtime.ts:125-130 | In issue order the agent never comes to remove the disk of a live machine, so its own refusal is never what protects one |
| LifecycleDisks.IntactKept | src/control/workspaces.ts:34-57 | Every step except attaching an abandoned volume keeps the disks of active rows intact |
| LifecycleTheorems.ClaimsAndStopsAreSingle | src/control/workspaces.ts:258-301 | Claims happen in non-decreasing admission time over the whole run, never twice for one row, and a row has at most one stop request in flight |
| LifecycleTheorems.CreatesAreIssuedOnce | src/control/workspaces.ts:262-272 | A whole run issues the creates of exactly the claimed rows, in the order of their claims and so of admission, and never two for one row |
| LifecycleTheorems.CreatesAreClaims | src/control/workspaces.ts:262-272 | From any state, the creates a run issues are the claims it adds, in order |
| LifecycleTheorems.HistoriesArePaths | src/control/workspaces.ts:217-301 | However a run continues, a row moves only along the state graph, an ended row never changes, and a deleted id never comes back |
| LifecycleInvariants.EveryActionIsARowsStep | src/control/workspaces.ts:28-320 | Every step of admission, stop, reconciliation, destruction and maintenance changes each row by at most one edge of the graph and stamps its end time |
| LifecycleAgent.MachinesKeepSlots | src/control/workspaces.ts:230-301 | Every step keeps: a live machine, and a create still on its way, belongs to a row that counts against the capacity |
| LifecycleAgent.StopsStayFinal | src/control/workspaces.ts:285-301 | Every step keeps: once a stop has taken effect its row has no machine and no create on its way |
| LifecycleAdmission.SlotsStayBounded | src/control/workspaces.ts:258-279 | Every step keeps the rows that hold a machine, plus the claims the reconciler has left, within `maxRunning` |
| LifecycleAdmission.ClaimsStayOrdered | src/control/workspaces.ts:259-263 | Every step keeps the claims in order of admission, and no claimable row older than the last claim |
| LifecycleAdmission.AdmissionKept | src/control/server.ts:53-60 | Every step, the deletion of ended rows after 30 days included, keeps the 24-hour windows counted by the rows that are left |
| LifecycleAdmission.VolumesKept | src/control/workspaces.ts:197-211 | Every step keeps the agreement of rows, volumes and destructions in flight |
| LifecycleCauses.EveryChangeHasItsCause | src/control/workspaces.ts:230-301 | After every run, for every row and next step: it enters running exactly when a provisioning row is delivered the success of its own create or a reading of its own status that found the machine running; failed exactly when such a reading found it gone; stopped exactly when its own stop is reported done; stopping exactly when its owner stops it or its lease has run out as a reconciliation begins; provisioning exactly when it is given a slot |
| LifecycleCauses.RunsRemember | src/control/workspaces.ts:230-301 | After every run each waiting request, reply and awaited call belongs to the request issued under its ticket |
| LifecycleCauses.FailuresChangeNoRow | src/control/workspaces.ts:273-277 | A failed create, status, stop or destruction leaves every row and every volume as it was |
| LifecycleCauses.DeletedExactly | src/control/server.ts:53-60 | A row is deleted exactly when maintenance finds that it ended before the retention period |
| LifecycleCauses.MarkedDestroyedExactly | src/control/workspaces.ts:205-208 | A volume is marked destroyed exactly when its own destruction is reported done |
| LifecycleCauses.AdmittedExactly | src/control/workspaces.ts:28-60 | A row appears exactly when a create finds room under all limits, and with what state, lease and volume |
| LifecycleCauses.AttachedExactly | src/control/workspaces.ts:307-321 | A persistent workspace marks the wallet's volume as attached now, or makes a new one, and touches no other |
| LifecycleCauses.RefusalTellsWhy | src/control/workspaces.ts:33-50 | Each status is given exactly in the cases it stands for |
| LifecycleCauses.RequestsExactly | src/control/workspaces.ts:259-272 | What is asked of the agent, and when: a create exactly for the row given a slot, a stop exactly when no operation is registered for the row being stopped, a reading at the row's turn, a destruction on request |
| LifecycleProgress.EveryListedRowIsStopped | src/control/workspaces.ts:231-236 | A reconciliation lists exactly the rows that are stopping as it begins and, once past its stop loop, has stopped each of them in that order |
| LifecycleProgress.EveryListedMachineIsChecked | src/control/workspaces.ts:238-256 | It lists exactly the running and provisioning rows and, once past its status loop, has asked for each in that order |
| LifecycleProgress.EveryFreeSlotIsGiven | src/control/workspaces.ts:258-279 | It never claims more than the slots that were free when it counted, and can end only when these are used up or no queued row with a running lease is left |
| LifecycleProgress.EveryStepAdvances | src/control/workspaces.ts:230-279 | Every step after the start leaves fewer phases, or as many and fewer steps, so a reconciliation whose calls are answered ends |
| LifecycleProgress.ItsStopIsAwaited | src/control/workspaces.ts:233-236 | It goes on from a stop exactly when that is settled |
| LifecycleProgress.EveryReplySettles | src/control/workspaces.ts:285-300 | Every answer to a stop, a failure included, settles and then clears its operation |
| LifecycleProgress.TheReconcilerIsNeverStuck | src/control/workspaces.ts:230-279 | In every state a reconciliation under way can take a step, or can after the stop it awaits has failed |
| WorkspaceService.WorkspaceService.Create | src/control/workspaces.ts:28-67 | The admission block refuses with the first applicable status, or makes the `Admit` step of the model |
| WorkspaceService.WorkspaceService.Refuse | src/control/workspaces.ts:33-50 | The questions are asked in order, and the first that applies gives the status |
| WorkspaceService.WorkspaceService.GetOrCreateVolume | src/control/workspaces.ts:307-321 | The wallet's undestroyed volume is touched, or a new one made |
| WorkspaceService.WorkspaceService.StopOwned | src/control/workspaces.ts:77-83 | Stopping marks the newest active row of the wallet and makes the `StopCurrent` step |
| WorkspaceService.WorkspaceService.StopRow | src/control/workspaces.ts:285-301 | A stop request is sent only if none is in flight for the row; otherwise the existing one is joined |
| WorkspaceService.WorkspaceService.StopAnswered | src/control/workspaces.ts:288-296 | The answer to a stop ends the row only if it is still stopping |
| WorkspaceService.WorkspaceService.StopForgotten | src/control/workspaces.ts:297-300 | The map entry is cleared only if it is still this operation |
| WorkspaceService.WorkspaceService.DestroyVolume | src/control/workspaces.ts:197-206 | Destruction is refused with the stated status, or the wallet is marked and the request sent |
| WorkspaceService.WorkspaceService.DestroyAnswered | src/control/workspaces.ts:206-210 | A destruction that succeeded marks the volume; in every case the wallet is unmarked |
| WorkspaceService.WorkspaceService.Reconcile | src/control/workspaces.ts:217-236 | Only one reconciliation runs; it starts by expiring leases and lists the stopping rows |
| WorkspaceService.WorkspaceService.StopStep | src/control/workspaces.ts:233-236 | One iteration of the stop loop is one step of the model |
| WorkspaceService.WorkspaceService.CheckStart | src/control/workspaces.ts:238-239 | The status loop takes its snapshot of running and provisioning rows |
| WorkspaceService.WorkspaceService.CheckStep | src/control/workspaces.ts:239-245 | The status loop asks for the next row of its snapshot, whose state may have changed since |
| WorkspaceService.WorkspaceService.CheckAnswered | src/control/workspaces.ts:241-255 | A status answer confirms a provisioning row, or fails a row whose machine is gone, or is skipped |
| WorkspaceService.WorkspaceService.CountCapacity | src/control/workspaces.ts:258-258 | The capacity is counted once, before the claim loop |
| WorkspaceService.WorkspaceService.OldestQueued | src/control/workspaces.ts:260-261 | The loop over the rows finds the oldest queued row whose lease has not expired, or none |
| WorkspaceService.WorkspaceService.ClaimStep | src/control/workspaces.ts:259-272 | One iteration of the claim loop claims that row and sends its create |
| WorkspaceService.WorkspaceService.CreateAnswered | src/control/workspaces.ts:273-277 | A create that is answered makes the row running if it is still provisioning; one that fails leaves it as it is. `EveryChangeHasItsCause` says so of runs without the step's own function |
| WorkspaceService.WorkspaceService.RunReconciliation | src/control/workspaces.ts:230-281 | A whole reconciliation that no owner's request interrupts, while the agent takes its requests with or without effect and answers or fails, machines exit, settled stops are cleared and time passes: it is a run of the model in issue order, leaves no row running whose lease had expired at its start, and ends with all slots taken or no claimable row |
| WorkspaceService.WorkspaceService.StopAll | src/control/workspaces.ts:233-236 | The stop loop awaits the stop of every listed row |
| WorkspaceService.WorkspaceService.CheckAll | src/control/workspaces.ts:238-256 | The status loop asks for every row of its snapshot |
| WorkspaceService.WorkspaceService.ClaimAll | src/control/workspaces.ts:258-280 | The claim loop, with the capacity counted once, goes on until slots or candidates run out |
| WorkspaceService.WorkspaceService.ClaimTurn | src/control/workspaces.ts:259-279 | One turn takes exactly one slot off the capacity, or ends the loop with nothing left to claim |
| WorkspaceService.WorkspaceService.Cleanup | src/control/server.ts:53-60 | Maintenance deletes exactly the ended rows older than the retention |
| TlsTheorems.CompleteMeansOneAcceptableHello | src/agent/egress-tls.ts:35-155 | The inspector answers complete with a count exactly when some leading records of that encoded length carry one ClientHello with exactly one server_name extension that normalises to the expected host and no 0xfe0d extension |
| TlsTheorems.CarriedHelloIsComplete | src/agent/egress-tls.ts:47-79 | Any acceptable hello, under any split into non-empty records and followed by anything within the limit, is accepted up to the end of its records |
| TlsTheorems.VerdictIsStable | src/agent/egress-tls.ts:47-78 | A verdict on a prefix survives every extension within the limit |
| TlsTheorems.PrefixesOfAcceptedInput | src/agent/egress-tls.ts:47-78 | A prefix of an accepted input is accepted with the same count exactly when it holds all consumed bytes, and is incomplete otherwise |
| TlsTheorems.ReadsIsNames | src/agent/egress-tls.ts:114-135 | The extension scan finds the expected name exactly when one extension is server_name with that name and none is 0xfe0d |
| TlsTheorems.ServerNameUnderstood | src/agent/egress-tls.ts:137-155 | An accepted server_name body is the encoding of one host name that normalises |
| TlsTheorems.ValidHelloWritten | src/agent/egress-tls.ts:81-135 | A ClientHello body that validates is the encoding of an acceptable hello |
| TlsTheorems.WrittenHelloValid | src/agent/egress-tls.ts:81-135 | The encoding of a well-formed hello validates if and only if the hello is acceptable |
| TlsTheorems.ParsedWritten | src/agent/egress-tls.ts:114-121 | Written extensions are parsed back, each in its place |
| TlsVerdicts.EveryHelloIsAnswered | src/agent/egress-tls.ts:35-135 | Every well-formed hello, under any split into records and before any tail within the limit, is accepted exactly when it names the expected host once and hides nothing, and is otherwise refused with the error that its extensions call for: the first 0xfe0d, the first repeated or ill-formed server_name, no name, or another name |
| TlsVerdicts.IncompleteExactly | src/agent/egress-tls.ts:47-70 | Incomplete means exactly that good records came whose message is not whole yet, and then less than one more record within the limit |
| TlsVerdicts.FailedExactly | src/agent/egress-tls.ts:47-78 | An error means exactly that good records came whose message is not whole yet, and then a header with that fault or a record with which the message is refused for that reason |
| TlsVerdicts.BodyRefusedExactly | src/agent/egress-tls.ts:81-113 | The body of a hello is refused with an error exactly when no fields can be read off it, or the extensions behind them call for the error |
| TlsVerdicts.BlockRefusedExactly | src/agent/egress-tls.ts:114-135 | An extension block is refused with an error exactly when its whole extensions, and whether bytes are left over, call for it |
| TlsVerdicts.RefusedUnseen | src/agent/egress-tls.ts:40-42 | Input is refused unseen exactly for a limit below 256, for more bytes than the limit, and for a host name that does not normalise |
| TlsInspector.InspectTlsClientHello | src/agent/egress-tls.ts:35-46 | The method decides as the inspection of which `TlsVerdicts` says exactly when it is complete, incomplete or failed, and with which error; the argument checks come first |
| TlsInspector.ReadAllRecords | src/agent/egress-tls.ts:43-79 | The record loop, gathering handshake parts, decides as the scan of the input |
| TlsInspector.ReadOneRecord | src/agent/egress-tls.ts:47-77 | One iteration of the record loop settles the verdict or moves past one record |
| TlsInspector.NextRecord | src/agent/egress-tls.ts:48-58 | One record header is classified as too short, bad with its error, or a payload length |
| TlsInspector.JudgeHandshake | src/agent/egress-tls.ts:66-77 | The gathered handshake bytes are judged as wait, accept or an error; `EveryHelloIsAnswered` and `FailedExactly` say which, read off the bytes |
| TlsInspector.ValidateClientHello | src/agent/egress-tls.ts:81-100 | The offset-driven checks of version, session id and cipher suites agree with the specification, error by error |
| TlsInspector.ValidateTail | src/agent/egress-tls.ts:102-113 | The checks of compression methods and the extensions length agree with the specification |
| TlsInspector.ReadExtensions | src/agent/egress-tls.ts:114-135 | The extension loop agrees with the specification, duplicate and forbidden extensions included |
| ClientHelloReceiver.ChunkingDoesNotMatter | src/agent/egress-proxy.ts:395-453 | However a stream within the limit is cut into chunks, it is settled as in one piece, and while incomplete the buffer holds all of it |
| ClientHelloReceiver.SettledStays | src/agent/egress-proxy.ts:411-433 | Once settled, no later event changes the outcome |
| ClientHelloReceiver.TooMuchIsSettled | src/agent/egress-proxy.ts:403-444 | A stream that passes the limit is settled as too large, unless the inspector had come to a verdict before |
| ClientHelloReceiver.EndingsSettle | src/agent/egress-proxy.ts:428-450 | The end of the stream, an error and the timeout settle what is not settled, each with its own failure |
| ClientHelloReceiver.Receiver.Handle | src/agent/egress-proxy.ts:434-450 | Each event handler makes the corresponding step of the model |
| ClientHelloReceiver.Receiver.Look | src/agent/egress-proxy.ts:437-444 | The buffered bytes are inspected and the outcome settled by the verdict |
| SshLeases.LeasesStaySafe | src/ssh/lease-manager.ts:83-189 | After every run: one lease per workspace and mode, active plus pending connections within the limit, every open stream in the active set of exactly one lease, and that lease in the table |
| SshLeases.LateConnectsYieldNothing | src/ssh/lease-manager.ts:128-148 | A connect that completes after its lease was revoked, replaced or expired, whenever it began, yields no stream |
| SshLeases.DeadForever | src/ssh/lease-manager.ts:170-189 | A lease that is out of the table or past its expiry never comes back |
| SshLeases.StepKeeps | src/ssh/lease-manager.ts:83-189 | Every step keeps the gateway invariant |
| SshLeases.RevocationKeeps | src/ssh/lease-manager.ts:182-189 | Revoking any set of leases empties their active sets and keeps the invariant |
| SshLeases.ConnectKeeps | src/ssh/lease-manager.ts:132-147 | A completed connect enters the active set only of a lease still in the table and in time |
| SshAuthority.StreamsAreAuthorised | src/ssh/lease-manager.ts:83-148 | After every run, each stream that was ever handed out answers a request that shows the workspace, wallet, mode and token digest of the lease it names; each active stream is held by that lease; and each lease belongs to whom it was issued for and lasts as asked, never beyond its workspace |
| SshAuthority.ConnectsExactly | src/ssh/lease-manager.ts:128-131 | A tunnel request starts a connect exactly when its lease is in the table and in time, workspace, wallet, mode and digest are the record's, and a connection is free; otherwise it changes nothing, but for revoking an expired lease |
| SshAuthority.RefusedFor | src/ssh/lease-manager.ts:170-180 | Which error a refused tunnel gets: the lease, then the scope, then the token, then the limit |
| SshAuthority.HandsOutExactly | src/ssh/lease-manager.ts:132-148 | A completed connect hands its stream out exactly when its lease is still in the table and in time |
| SshAuthority.LeavesExactly | src/ssh/lease-manager.ts:121-189 | A lease leaves the table exactly by revocation within its scope, expiry, the stop of its workspace or of the gateway, or a new lease of the same workspace and mode |
| SshAuthority.EntersExactly | src/ssh/lease-manager.ts:104-126 | A lease enters the table exactly when its certificate comes back in scope, with the scope, token and expiry that were signed |
| SshAuthority.ClosesExactly | src/ssh/lease-manager.ts:139-147 | An open stream closes exactly when it finishes or its lease ends |
| SshAuthority.FinishedIsForgotten | src/ssh/lease-manager.ts:140-146 | A stream that finishes frees its own connection and no other |
| SshAuthority.GrantedExactly | src/ssh/lease-manager.ts:89-94 | A lease is signed exactly when the workspace lasts more than a second and the asked time is within bounds, and lasts as asked but no longer than the workspace |
| SshAuthority.SigningExactly | src/ssh/lease-manager.ts:96-104 | An issue call is under way from when it may be signed until the signer answers or fails |
| SshAuthority.ConnectingEndsExactly | src/ssh/lease-manager.ts:132-137 | A connect counts as pending until it completes or fails |
| SshLeaseManager.SshLeaseManager.BeginIssue | src/ssh/lease-manager.ts:83-103 | A request is refused, or the certificate parameters are computed and signing begins |
| SshLeaseManager.SshLeaseManager.FinishIssue | src/ssh/lease-manager.ts:104-126 | The rivals of the same workspace and mode are revoked before the new lease enters the table |
| SshLeaseManager.SshLeaseManager.BeginTunnel | src/ssh/lease-manager.ts:128-131 | Authorisation and the connection limit are tested in order, and a pending connection is counted; `ConnectsExactly` says for whom |
| SshLeaseManager.SshLeaseManager.FinishConnect | src/ssh/lease-manager.ts:132-148 | The pending count goes down, and the stream is handed out or destroyed |
| SshLeaseManager.SshLeaseManager.FailConnect | src/ssh/lease-manager.ts:132-137 | A failed connect only takes its pending connection back |
| SshLeaseManager.SshLeaseManager.RevokeLease | src/ssh/lease-manager.ts:182-189 | Revocation removes the lease and destroys its streams |
| SshLeaseManager.SshLeaseManager.Revoke | src/ssh/lease-manager.ts:150-154 | Revocation by the owner is refused outside its scope |
| SshLeaseManager.SshLeaseManager.RevokeWorkspace | src/ssh/lease-manager.ts:156-159 | All leases of the workspace are revoked |
| SshLeaseManager.SshLeaseManager.SweepExpired | src/ssh/lease-manager.ts:161-164 | All expired leases are revoked |
| SshLeaseManager.SshLeaseManager.Stop | src/ssh/lease-manager.ts:166-168 | All leases are revoked |
| LogRing.Ring.Append | ops/guest-control/src/logs.rs:30-42 | The ring holds exactly the last 1 MiB of the output, with its absolute offsets |
| LogRing.Ring.Read | ops/guest-control/src/logs.rs:44-71 | A read answers as the specification on the whole output: the retained bytes from the cursor on, with exact offsets and flags |
| LogRing.FollowingReconstructs | ops/guest-control/src/logs.rs:44-71 | A reader that feeds back `nextOffset`, interleaved with appends in any way, is never refused, and holds exactly the output up to its cursor if no reply was truncated |
| LogRing.EofIsFinal | ops/guest-control/src/logs.rs:62-70 | After a reply at end of file nothing is appended any more |
| LogRing.SlicesAreJobLogChunks | src/jobs/model.ts:61-77 | Every chunk satisfies the control plane's rules, and makes progress while there is more |
| LogRing.LastOfLast | ops/guest-control/src/logs.rs:34-41 | Dropping the oldest bytes early never loses a byte that a later append would have kept |
| LogRing.SliceSays | ops/guest-control/src/logs.rs:44-71 | A reply reports lost bytes exactly when the cursor lies more than 1 MiB behind the end, and end of file exactly when the job is terminal and the reply reaches the end; it holds the output from the cursor, or from the last 1 MiB, on |
| LogRing.TruncatedExactly | ops/guest-control/src/logs.rs:50-55 | Over any interleaving a reader misses output exactly when it once asks from more than 1 MiB behind |
| LogRing.TheEndIsLearnt | ops/guest-control/src/logs.rs:60-70 | A reader of an ended log learns the end as soon as it has asked once more than there are bytes left |
| LogRing.TerminalHistory.Remember | ops/images/guest/bloom-vsock-agent.c:23-31 | The C history buffer, moved and filled in place, holds exactly the last 262144 bytes of the output |
| LogRing.TerminalHistory.MakeRoom | ops/images/guest/bloom-vsock-agent.c:24-28 | The move to the front keeps the newest bytes and leaves room for the new ones |
| LogRing.LastWithRoom | ops/images/guest/bloom-vsock-agent.c:24-30 | Forgetting first and appending then is the same as keeping the last bytes of everything |
| Jobs.TableStaysBounded | ops/guest-control/src/jobs.rs:140-170 | After every run with starts one at a time: at most 2 jobs that are not terminal, at most 64 retained, and the order lists every table key once |
| Jobs.PruningAlwaysMakesRoom | ops/guest-control/src/jobs.rs:160-170 | When pruning stops there is room, so the refusal for too many retained jobs is unreachable |
| Jobs.PruneKeepsActive | ops/guest-control/src/jobs.rs:496-519 | Pruning drops terminal jobs only and changes no other |
| Jobs.PruneIsOldestFirst | ops/guest-control/src/jobs.rs:496-519 | Of two terminal jobs the older never outlives the younger |
| Jobs.StepsAreValidTransitions | src/jobs/model.ts:106-117 | Every step moves a job along the model's transition table, and never changes a terminal job |
| Jobs.TerminalIsFinal | ops/guest-control/src/jobs.rs:391-399 | A terminal job is written once: state, outcome and output never change while it is retained |
| Jobs.StatusRulesMeanLaunched | src/jobs/model.ts:79-94 | In every run the status of a job satisfies the control plane's cross-field rules exactly when the run entered the job by a launch, and not by a failure to launch |
| Jobs.AnExampleOfARefusedStatus | ops/guest-control/src/jobs.rs:218-240 | A concrete run of one failed start, whose status breaks the rules |
| Jobs.EofMeansTerminal | ops/guest-control/src/jobs.rs:478-482 | A log reply at end of file has delivered the whole output there will ever be |
| Jobs.StepKeeps | ops/guest-control/src/jobs.rs:140-259 | Every step keeps the engine's invariant |
| JobOutcomes.OutcomesAreDeserved | ops/guest-control/src/jobs.rs:372-399 | After every run, read off its actions alone: a launched job has ended exactly when its thread has recorded it, and then is cancelled if and only if that was asked before the thread decided, else timed out if and only if it timed out, else succeeded if and only if it exited with zero, else failed, with the exit code or signal of a job that ended by itself and none otherwise; a job that could not be launched is failed from the start; start and end times, timeout and log are those of its events |
| JobOutcomes.AdmittedExactly | ops/guest-control/src/jobs.rs:140-158 | A start is admitted exactly when its id is new and fewer than two jobs are active |
| JobOutcomes.StartsComeToAnEnd | ops/guest-control/src/jobs.rs:160-259 | A start under way prunes until there is room, passes the second check exactly then, and is over once it gives up or is ordered |
| JobOutcomes.TheOrderIsOfEntry | ops/guest-control/src/jobs.rs:496-519 | After every run the order that pruning goes by is the order in which the jobs entered |
| JobEngine.JobEngine.CheckLimits | ops/guest-control/src/jobs.rs:140-158 | The limit check refuses as the specification: known id, then too many active |
| JobEngine.JobEngine.FindTerminal | ops/guest-control/src/jobs.rs:500-510 | The search finds the first terminal job of the order |
| JobEngine.JobEngine.PruneTerminalJobs | ops/guest-control/src/jobs.rs:496-519 | The pruning loop computes the specified pruning |
| JobEngine.JobEngine.Forget | ops/guest-control/src/jobs.rs:512-515 | One job leaves the table and the order |
| JobEngine.JobEngine.RecheckRetained | ops/guest-control/src/jobs.rs:163-170 | The second check refuses exactly when the table is full |
| JobEngine.JobEngine.Launch | ops/guest-control/src/jobs.rs:218-258 | A launched job enters the table running; a failed launch enters it failed, with its message in the log |
| JobEngine.JobEngine.AppendOrder | ops/guest-control/src/jobs.rs:259-259 | The id is appended to the order |
| JobEngine.JobEngine.StopStreaming | ops/guest-control/src/jobs.rs:292-370 | The wait thread has seen the process end or ended it, and emptied the pipes |
| JobEngine.JobEngine.DetermineOutcome | ops/guest-control/src/jobs.rs:372-390 | The wait thread's decision: exactly what timeout, cancellation flag and wait status deserve, exit code and signal included |
| JobEngine.JobEngine.RecordOutcome | ops/guest-control/src/jobs.rs:372-399 | The wait thread's last critical section writes the outcome it has determined, and the end time, into the job; `OutcomesAreDeserved` says which outcome |
| JobEngine.JobEngine.Cancel | ops/guest-control/src/jobs.rs:428-459 | A cancellation of a terminal job reports it unchanged, and of another marks it |
| JobEngine.JobEngine.WriteLog | ops/guest-control/src/jobs.rs:292-322 | The worker appends what it drained to the ring of its job, and to no other |
| JobEngine.JobEngine.InsertJob | ops/guest-control/src/jobs.rs:234-255 | A job enters the table with a ring of its own |
| JobEngine.JobEngine.DropJob | ops/guest-control/src/jobs.rs:512-515 | A pruned job leaves table and order together with its ring |
| JobEngine.JobEngine.ReadLog | ops/guest-control/src/jobs.rs:478-482 | A status request reads the job's ring of at most 1 MiB, and gets what the specification takes from all the job has ever written |
| WorkspaceFiles.WorkspaceFiles.WalkDirBytes | ops/guest-control/src/files.rs:582-642 | The recursive scan counts the files in its reach, at most 33 names deep, and of those as many as the limit of 20000 allows, whichever come first; it stops with an error only over a file in the directory itself past that limit |
| WorkspaceFiles.WorkspaceFiles.VisitEntry | ops/guest-control/src/files.rs:602-638 | One entry of the scan: a file counts and stops the scan only past the limit, a directory is scanned in turn, anything else is passed over |
| WorkspaceFiles.WorkspaceFiles.DirectoryBytes | ops/guest-control/src/files.rs:544-549 | The usage is the sum of all regular files at most 33 names deep if these are at most 20000, and otherwise of some 20000 of them or an error |
| QuotaScan.ScanWithinTheLimit | ops/guest-control/src/files.rs:582-642 | With at most 20000 files in reach the answer is determined: the bytes of exactly these |
| QuotaScan.ScanIsExact | ops/guest-control/src/files.rs:582-642 | Then the scan is exact if and only if every file more than 33 names deep is empty |
| QuotaScan.ScanIsNeverHigh | ops/guest-control/src/files.rs:582-642 | For every tree the scan is never too high, and gives up only past the limit on entries |
| WorkspaceFiles.WorkspaceFiles.OpenDirectory | ops/guest-control/src/files.rs:84-125 | The walk succeeds exactly when nothing on the way is in the way and, without `create`, everything is there; missing directories are made; a failed walk changes nothing |
| WorkspaceFiles.WorkspaceFiles.OpenFile | ops/guest-control/src/files.rs:127-156 | Opening is refused with the code of the first failing step, and creates an empty file only when writing |
| WorkspaceFiles.WorkspaceFiles.Read | ops/guest-control/src/files.rs:242-300 | A read is refused by the first applicable rule, or returns bytes of the file from the offset, possibly fewer than asked but some unless at the end, with exact offsets |
| WorkspaceFiles.WorkspaceFiles.Write | ops/guest-control/src/files.rs:302-413 | A write is refused by its arguments, by opening, or by the quota, in that order, with nothing stored; or the file holds exactly what positioned writing gives, and no other entry changes |
| WorkspaceFiles.WorkspaceFiles.WriteOpened | ops/guest-control/src/files.rs:347-407 | Quota test and reply of a write to an open file, decided by what the scan answers, for every tree |
| WorkspaceFiles.WorkspaceFiles.PwriteAll | ops/guest-control/src/files.rs:374-393 | The loop of partial writes stores the whole chunk at its offset after the optional truncation |
| WorkspaceFiles.WorkspaceFiles.Delete | ops/guest-control/src/files.rs:415-454 | Exactly one regular file is removed, and the usage after it reported as the scan finds it; a refusal before that leaves the tree alone |
| WorkspaceFiles.DeleteAnswers | ops/guest-control/src/files.rs:439-448 | The delete answers an error although the file is gone only past the limit on entries, with a file in the root; within it, it reports the files in reach, for a countable tree exactly what is left |
| WorkspaceFiles.PatchedTwice | ops/guest-control/src/files.rs:379-393 | Two consecutive positioned writes are one |
| QuotaTheorems.WrittenKeepsQuota | ops/guest-control/src/files.rs:362-373 | With at most 20000 files in reach, an accepted write ends within the quota if and only if the reported usage and the bytes more than 33 names deep do (a write of nothing past the end aside), so always when there are none of these; a refused one changes nothing |
| QuotaTheorems.AcceptedWriteAddsUp | ops/guest-control/src/files.rs:362-407 | For every tree, what is stored after an accepted write is the reported usage, at most the quota, and exactly what the scan had missed |
| QuotaTheorems.ShallowWritesKeepTheQuota | ops/guest-control/src/files.rs:302-413 | Over any list of writes to paths of at most 33 names, from a tree within its quota and without deep bytes, the quota holds throughout, as long as at most 20000 files come together |
| QuotaTheorems.DeepWritesPassTheQuota | ops/guest-control/src/files.rs:582-592 | Both conditions are needed: two new files in one directory 33 or more names deep, each within the quota, are both accepted whatever they add up to |
| QuotaTheorems.AnExampleOfDeepWrites | ops/guest-control/src/files.rs:582-592 | A concrete pair of writes to paths of 34 names: two bytes stored under a quota of one |
| QuotaTheorems.DeepPathsAreAccepted | ops/guest-control/src/validate.rs:103-131 | The guest's validator lets these paths through |
| QuotaTheorems.ACrowdPassesTheQuota | ops/guest-control/src/files.rs:617-621 | In a directory of more than 20000 one-byte files that fill the quota another such file is accepted, in whatever order the scan goes |
| QuotaTheorems.AnExampleOfAnEmptyWrite | ops/guest-control/src/files.rs:362-407 | A concrete write of nothing at offset 5: five bytes reported, none stored |
| WorkspaceFiles.UsageAfterWrite | ops/guest-control/src/files.rs:362-407 | A write moves the total by exactly the change of its file's size |
| WorkspaceFiles.ReportedUsageIsTrue | ops/guest-control/src/files.rs:364-368 | The usage a write reports is the true one exactly unless it writes nothing beyond the end of the file |
| FileTree.SumOfParts | ops/guest-control/src/files.rs:582-642 | The sum over a tree is the sum over its disjoint parts |
| FileTree.WithDirectoriesIsSafe | ops/guest-control/src/files.rs:95-123 | Making missing parents adds directories only and changes no file |
| FileRefusals.OpenRefusedFor | ops/guest-control/src/files.rs:84-156 | A path can be opened exactly if it has a parent below the root, nothing obstructs the way, and it is a regular file, or absent when writing, or a directory when reading; which code stands for what else |
| FileRefusals.ReadRefusedFor | ops/guest-control/src/files.rs:242-280 | A read is served exactly for a cursor within a regular file of at most 8 MiB and 1 byte to 256 KiB at a time; which code stands for what else |
| FileRefusals.ArgumentsRefusedFor | ops/guest-control/src/files.rs:310-345 | A write's arguments are in order exactly if it begins within 8 MiB, at the start when it truncates, and its data is the base64 of at most 256 KiB that end within 8 MiB; which code stands for what else |
| FileRefusals.DeleteRefusedFor | ops/guest-control/src/files.rs:415-438 | Which code a delete that removes nothing gets |
| GuestWorkspace.GuestWorkspace.Write | src/agent/guest-workspace.ts:64-79 | An upload over a tree within the scan's reach succeeds exactly when its contents fit 8 MiB and used minus old size plus new size fits the quota; then only this file changed and the reported usage is the true sum; refused, it reports 413 and leaves the old contents if the first chunk was refused, and otherwise the accepted chunks |
| GuestWorkspace.GuestWorkspace.Read | src/agent/guest-workspace.ts:40-62 | A download terminates and returns exactly the file's bytes, or the status of the refusal |
| GuestWorkspace.UndoneExactly | src/agent/guest-workspace.ts:64-79 | A refused upload leaves the files as they were if and only if the file was there before and either the first chunk was too much or the accepted chunks spell the old contents |
| GuestWorkspace.ARefusedUploadOverwrites | src/agent/guest-workspace.ts:64-79 | A concrete upload refused at its second chunk: the first has replaced the file |
| GuestWorkspace.ARefusedUploadCreates | src/agent/guest-workspace.ts:64-79 | A concrete upload refused at its first chunk: an empty file is there that was not |
| GuestWorkspace.GuestWorkspace.PutChunk | src/agent/guest-workspace.ts:67-76 | One chunk is accepted exactly when the file may grow to its end |
| GuestWorkspace.GuestWorkspace.Delete | src/agent/guest-workspace.ts:81-85 | A deletion removes the file and reports the true remaining usage |
| GuestWorkspace.StoredCanBeFetched | src/agent/guest-workspace.ts:40-79 | After a successful upload a download of the path returns the same bytes, and every other file is as it was |
| GuestWorkspace.RefusedUpload | src/agent/guest-workspace.ts:64-79 | Which prefix of the contents a refused upload leaves behind |
| Base64.DecodeEncode | src/agent/guest-workspace.ts:104-111 | Decoding an encoding gives the same bytes |
| Base64.GroupsSpellTheSame | src/agent/guest-workspace.ts:104-111 | Four symbols and their three bytes spell the same 24-bit number |
| Base64.CanonicalMeansEncoded | src/guest-protocol.ts:140-143 | The canonical-form test accepts exactly the texts that are encodings |
| Base64.EncodedLength | src/guest-protocol.ts:13-14 | The length of an encoding, rounded up to groups of four |
| DataFiles.StoredBytesNeverExceedTheQuota | src/agent/data-files.ts:56-104 | For any calls on any roots, interleaved at every await and failing anywhere, no root ever holds more than its quota, even in the middle of a write |
| DataFiles.CallsTakeTurnsInOrder | src/agent/data-files.ts:92-104 | A call on a root has its turn only after every earlier call on it is over: mutual exclusion in arrival order |
| DataFiles.LockEntriesAreExact | src/agent/data-files.ts:92-104 | The map has an entry for a root exactly while a call on it is running or waiting |
| DataFiles.RepliesAreTrue | src/agent/data-files.ts:68-88 | A successful call has stored or removed what it was asked, and its reply is the true sum at that moment |
| DataFiles.NobodyIsStuck | src/agent/data-files.ts:95-99 | Once the earlier calls on its root are over, a waiting call may enter |
| DataFiles.StepKeepsTurns | src/agent/data-files.ts:92-104 | Every step keeps the chain of promises in order and the map of locks exact |
| DataFiles.StepKeepsStorage | src/agent/data-files.ts:58-88 | Every step keeps what a running call has measured true, and the quota |
| DataFileCalls.AdmittedExactly | src/agent/data-files.ts:56-58 | A call is admitted exactly for a known root and at most 8 MiB |
| DataFileCalls.LetThroughExactly | src/agent/data-files.ts:63-66 | A write is let through exactly if the store with the new contents in place of the old is within its quota |
| DataFileCalls.AWriteMeasures | src/agent/data-files.ts:63-64 | A call that has its turn measures the old size and the true sum |
| DataFileCalls.AWriteIsDone | src/agent/data-files.ts:68-77 | Let through, a write leaves exactly its contents at its path, replies with the true sum, and changes nothing else |
| DataFileCalls.ADeleteIsDone | src/agent/data-files.ts:80-90 | A delete happens exactly to a regular file, removes just that, and replies with the true sum |
| DataFileCalls.ParentsAreMade | src/agent/data-files.ts:136-152 | Making parents makes just the missing directories on the way |
| DataFileStore.DirectoryBytes | src/agent/data-files.ts:165-182 | The worklist scan returns the sum over the tree exactly when the tree has at most 20000 entries, and refuses otherwise |
| DataFileStore.ReadEntries | src/agent/data-files.ts:170-180 | One directory's entries are counted once each, and its subdirectories become pending |
| DataFileStore.WorkspaceDataFiles.Enqueue | src/agent/data-files.ts:57-97 | The synchronous start of a call takes the next place in the chain, or refuses an oversized upload |
| DataFileStore.WorkspaceDataFiles.EnsureSafeParents | src/agent/data-files.ts:136-152 | The missing parents are made, or the call refused and nothing made |
| DataFileStore.WorkspaceDataFiles.MakeDirectories | src/agent/data-files.ts:139-151 | The loop over the parents succeeds exactly when none is in the way |
| DataFileStore.WorkspaceDataFiles.TakeMeasure | src/agent/data-files.ts:64-64 | The scan's result is recorded as the call's measurement |
| DataFileStore.WorkspaceDataFiles.Approve | src/agent/data-files.ts:65-70 | The quota test refuses with 413, or the file is truncated |
| DataFileStore.WorkspaceDataFiles.Leave | src/agent/data-files.ts:100-103 | The promise is resolved, and the map entry dropped only if it is still this call's |
| DataVolume.OnlyCompleteImagesArePublished | src/agent/data-volume.ts:46-60 | With any number of concurrent callers the stable path is bound only to a complete file system of an allowed size |
| DataVolume.PublicationIsFinal | src/agent/data-volume.ts:54-60 | Once bound, the stable path stays bound to the same file, and the file never changes |
| DataVolume.AnswersAreTrue | src/agent/data-volume.ts:71-84 | A caller that succeeds sees a complete image of the size it asked for, one refused for the size did ask for another, and none finds the image unformatted |
| DataVolume.WinnersAgree | src/agent/data-volume.ts:25-65 | Two callers that both succeed asked for the same size |
| DataVolume.NothingIsLeftBehind | src/agent/data-volume.ts:61-64 | When every call is over no temporary file is left |
| DataVolume.StepKeepsInvariant | src/agent/data-volume.ts:25-84 | Every step keeps published images complete, temporary files apart, and what callers know true |
| DataVolume.TakenUpExactly | src/agent/data-volume.ts:26-28 | A call is taken up exactly for 16 MiB to 5 GiB |
| DataVolume.SpaceIsAsked | src/agent/data-volume.ts:29-35 | It goes on exactly if its size is free |
| DataVolume.APublishedImageAnswers | src/agent/data-volume.ts:39-44 | A call that finds an image is answered by its size, and changes nothing |
| DataVolume.NothingFound | src/agent/data-volume.ts:42-44 | Only without an image does it go on to prepare one |
| DataVolume.ACallPrepares | src/agent/data-volume.ts:46-53 | It makes a complete image of its size under a name of its own and touches no other |
| DataVolume.LinkingPublishes | src/agent/data-volume.ts:57-58 | Linking publishes this image exactly if none was published |
| DataVolume.TheSecondLookDecides | src/agent/data-volume.ts:59-64 | Whichever image is published then decides the answer, and the call's own name goes in both cases |
| VolumeStore.VolumeStore.EnsureExt4Volume | src/agent/data-volume.ts:25-65 | A call that nobody interrupts answers by the size of the image that was there, or publishes one of its own, and leaves no temporary file |
| VolumeStore.VolumeStore.Look | src/agent/data-volume.ts:71-84 | One look at the stable path gives the verdict on the published image |
| VolumeStore.VolumeStore.LinkTemporary | src/agent/data-volume.ts:54-58 | Publication never replaces an existing name |
| VolumeStore.VolumeStore.CreateTemporary | src/agent/data-volume.ts:46-52 | A temporary image of the caller's own is created |
| VolumeStore.VolumeStore.RemoveTemporary | src/agent/data-volume.ts:61-64 | The temporary name goes in every case |
| GuestProtocol.EveryChunkingYieldsTheFrames | src/guest-protocol.ts:109-132 | For every list of encoded frames and blank lines, cut into chunks of at most the frame limit in any way, the receiver never fails and ends with exactly the frames in order and an empty remainder |
| GuestProtocol.FramesOfConcatenation | src/guest-protocol.ts:116-132 | Decoding a buffer and then what follows its remainder is decoding both at once |
| GuestProtocol.FrameRoundTrip | src/guest-protocol.ts:109-113 | A value decodes from its own frame |
| GuestProtocol.PrefixDecodes | src/guest-protocol.ts:128-131 | Every prefix of a stream decodes, with less than a frame left over |
| GuestProtocol.DecodeGuestFrames | src/guest-protocol.ts:116-132 | The loop over the newlines decodes as the specification, limit by limit |
| GuestChannel.UnixReplySettles | src/agent/guest-channel.ts:55-95 | Over a Unix endpoint, for every way of cutting a reply, the call is pending until the last byte and then settled with the reply's result |
| GuestChannel.VsockReplySettles | src/agent/guest-channel.ts:61-74 | Over a vsock endpoint the call gets its result exactly when the bytes up to the end of the chunk that completes the handshake are at most 128 |
| GuestChannel.SettlesOnce | src/agent/guest-channel.ts:38-45 | Once settled the promise never changes, and an error, a close or the timeout settles it |
| GuestChannel.RequestsAreSentOnce | src/agent/guest-channel.ts:47-58 | At most one frame is written, and it is the request's |
| GuestReplies.OnlyItsOwnReplySettles | src/agent/guest-channel.ts:59-95 | Whatever happens on the connection, a call has a result only if a line arrived that parses to a success reply with its id and this result, and is rejected with a guest's code only if one arrived that parses to a failure reply with its id and the code |
| GuestReplies.VerdictExactly | src/agent/guest-channel.ts:90-94 | A reply resolves exactly if it is a success for this request, with its own result; it rejects with its own code exactly if it is a failure of this request; and else as a transport error |
| GuestReplies.ChunkSettlesExactly | src/agent/guest-channel.ts:83-94 | A pending call stays pending exactly while no whole line and no excess has arrived, is settled by a reply exactly if that is the only line, and else is rejected |
| GuestReplies.RefusedHandshakeRejects | src/agent/guest-channel.ts:61-71 | A refused handshake line rejects the call before anything is sent, however it is cut up and whatever follows |
| GuestReplies.AcceptedExactly | src/agent/guest-channel.ts:67-69 | A handshake line is accepted exactly if its seven-bit text is "OK", a space and a number |
| GuestReplies.UnfitRequestRejects | src/agent/guest-channel.ts:47-50 | A request that fits no frame is not sent and rejects the call |
| GuestChannel.Channel.OnData | src/agent/guest-channel.ts:59-77 | The data handler makes the corresponding step of the model |
| GuestChannel.Channel.Consume | src/agent/guest-channel.ts:83-94 | Consuming a chunk settles the promise as the model does |
| GuestChannel.Channel.OnConnect | src/agent/guest-channel.ts:55-58 | Connecting sends the request, unless a handshake comes first |
| GuestChannel.Channel.OnEnd | src/agent/guest-channel.ts:78-81 | Error, close and timeout reject an unsettled promise |
| JsonText.Rendered | src/guest-protocol.ts:109-113 | The JSON text of a message has no control character, so no newline, and at most the size computed for it |
| JsonRoundTrip.ValueReadBack | src/guest-protocol.ts:116-132 | A value is read back from its own text whatever follows it: escapes, surrogate pairs and lone surrogates, UTF-8, numbers and nested objects |
| JsonRoundTrip.MessagesAreLossless | src/guest-protocol.ts:109-132 | So the JSON of these messages is what the framing and channel theorems ask for |
| GuestMessages.FittingReplySettles | src/agent/guest-channel.ts:55-95 | Any reply that fits, cut up in any way, settles its call at the last byte and not before |
| GuestMessages.MessagesArriveInOrder | src/guest-protocol.ts:109-132 | Messages that fit, cut into chunks of at most a frame in any way, come out as they are, in order |
| GuestMessages.AnExampleOfALostReply | src/agent/guest-channel.ts:61-74 | A concrete reply that is lost in one chunk with the handshake and received behind it |
| GuestMessages.FittingRequestIsWritten | src/agent/guest-channel.ts:47-58 | A request that fits is written whole as one frame when the connection opens |
| GuestMessages.FsWriteRequestFits | src/guest-protocol.ts:41-47 | Every validated write request is encoded as one frame |
| GuestMessages.SmallRequestsFit | src/guest-protocol.ts:35-62 | Every validated read and job status request is encoded as one frame |
| GuestMessages.FsWriteReplyFits | ops/guest-control/src/files.rs:401-407 | Every write reply of the guest is encoded as one frame |
| GuestMessages.FsReadReplyFits | ops/guest-control/src/files.rs:287-294 | Every read reply of the guest is encoded as one frame |
| GuestMessages.JobStatusReplyFits | ops/guest-control/src/jobs.rs:478-494 | Every job status of the guest, with a full log chunk or the refusal of a cursor past the end, is encoded as one frame |
| Ipv4Addresses.QuadParses | src/agent/egress-policy.ts:255-266 | Every IPv4 address in dotted decimal is read as its value |
| Ipv4Addresses.OnlyQuadsParse | src/agent/egress-policy.ts:255-266 | Nothing but the dotted decimal text of an address is accepted |
| Ipv4Addresses.ParseIpv4 | src/agent/egress-policy.ts:255-266 | The loop over the octets computes the specified value |
| Ipv6TextForms.ReadsEveryForm | src/agent/egress-policy.ts:292-311 | Every text form of section 2.2 of RFC 4291, in either case, is read as the 128-bit address it means |
| Ipv6TextForms.AcceptsOnlyForms | src/agent/egress-policy.ts:292-311 | Whatever is accepted is one of these forms, read as what it means |
| Ipv6TextForms.ExpandingKeepsTheMeaning | src/agent/egress-policy.ts:295-301 | Writing the trailing dotted quad as two groups does not change the address |
| Ipv6Addresses.GroupsParse | src/agent/egress-policy.ts:302-310 | Groups, with or without one "::", are read as the value of the eight groups they stand for |
| Ipv6Addresses.OnlyGroupsParse | src/agent/egress-policy.ts:302-310 | Nothing but such groups is accepted |
| Ipv6Addresses.ParseIpv6 | src/agent/egress-policy.ts:292-311 | The parser, with its one replacement and its accumulation, computes the specified value |
| EgressPolicy.V4TestIsMembership | src/agent/egress-policy.ts:268-273 | The IPv4 CIDR test is membership in the block's range |
| EgressPolicy.V6TestIsMembership | src/agent/egress-policy.ts:313-316 | The IPv6 CIDR test is membership in the block's range |
| EgressPolicy.PublicV4IsTheComplement | src/agent/egress-policy.ts:232-253 | An IPv4 address is public exactly when it lies outside every listed range |
| EgressPolicy.PublicV6IsTheComplement | src/agent/egress-policy.ts:275-290 | An IPv6 address, in whatever form, is public exactly when it lies in 2000::/3 and outside every listed range |
| EgressPolicy.PublicMeansOutsideTheRanges | src/agent/egress-policy.ts:174-179 | A text that passes the test spells an address outside every listed range, whatever the classification of texts |
| EgressPolicy.PatternsMeanSubdomains | src/agent/egress-policy.ts:192-196 | A wildcard pattern matches exactly the names below its host name, any other pattern only its own |
| EgressPolicy.Approve | src/agent/egress-policy.ts:75-109 | Approved exactly if the name is no address and some pattern is the name or a wildcard it extends by a front and a dot, the port is valid and open for the protocol, and all of at least one answers are allowed; the first answer is returned, or the error of the first rule that fails |
| EgressPolicy.ApprovalMeansAllAnswersArePublic | src/agent/egress-policy.ts:97-104 | An approval means that every DNS answer is of its stated family and outside every listed range |
| EgressPolicy.ApprovedExactly | src/agent/egress-policy.ts:75-109 | With the address tests in place: approved exactly if the name is no address and listed, the port is valid and open, and every answer, of which there are some, is of its stated family and spells an address outside the listed ranges |
| EgressPolicy.RefusedFor | src/agent/egress-policy.ts:75-109 | Each error is given exactly in the case it stands for |
| EgressRanges.PublicV4ByOctets | src/agent/egress-policy.ts:232-253 | An IPv4 address is public exactly when its octets are in none of the blocks for special use, written out in octets |
| EgressRanges.PublicV6ByWords | src/agent/egress-policy.ts:275-290 | An IPv6 address, in whatever form, is public exactly when its 16-bit words are in 2000::/3 and in none of the listed blocks, written out in words |
| Sha256.Sha256Hex | ops/guest-control/src/control.rs:744-839 | The in-place code computes the digest of section 6.2.2 of FIPS 180-4 in hexadecimal |
| Sha256.DigestOf | ops/guest-control/src/control.rs:769-838 | Padding, block loop and output compute the specified digest |
| Sha256.Pad | ops/guest-control/src/control.rs:769-776 | The padding loop ends, with the padding of section 5.1.1 |
| Sha256.PaddedLength | ops/guest-control/src/control.rs:773-776 | The padded length is a whole number of 64-byte blocks |
| Sha256.PaddingIsInjective | ops/guest-control/src/control.rs:770-776 | Messages shorter than 2^61 bytes are told apart by their padding |
| Sha256.FillSchedule | ops/guest-control/src/control.rs:778-795 | The two loops fill the message schedule |
| Sha256.RunRounds | ops/guest-control/src/control.rs:796-823 | The 64 rounds on eight variables are the specified rounds |
| Sha256.AbsorbBlocks | ops/guest-control/src/control.rs:778-832 | The block loop is the fold of the compression over the blocks |
| Sha256.Sha256IsSuitable | ops/guest-control/src/control.rs:790-794 | The code's order of the schedule's four terms is immaterial in 32-bit arithmetic |
| Sha256Constants.ConstantsAreCubeRoots | ops/guest-control/src/control.rs:756-767 | Each round constant is the first 32 bits of the fractional part of the cube root of its prime |
| Sha256Constants.InitialIsSquareRoots | ops/guest-control/src/control.rs:746-754 | The initial hash value is the first 32 bits of the fractional parts of the square roots of the first eight primes |
| Sha256Constants.BytesSpell | ops/guest-control/src/control.rs:776-776 | Big-endian bytes spell the number, modulo what they can hold |
| Sha256Constants.PaddingSpellsTheLength | ops/guest-control/src/control.rs:771-776 | The last eight bytes of the padding spell the length in bits |
| Sha256Constants.WordsSpell | ops/guest-control/src/control.rs:780-787 | Four bytes make the word whose value they spell |
| Sha256Constants.HexWordSpells | ops/guest-control/src/control.rs:834-837 | A word is written as eight hexadecimal digits that spell its value |
| Sha256Constants.ChoiceAndMajority | ops/guest-control/src/control.rs:806-813 | The two bitwise functions choose, and take the majority |
| Paths.NormalizedMeansClean | src/guest-protocol.ts:134-138 | Normalising and comparing accepts exactly the paths whose every segment is ordinary |
| Paths.ValidatorsAgree | ops/guest-control/src/validate.rs:103-139 | The validators of guest, node agent, job model and browser accept exactly these paths too, up to their length limits, "." for the root where directories are meant, and the browser's trimming |
| Paths.ProtocolAndGuestAgree | ops/guest-control/src/validate.rs:103-131 | Of the paths the protocol lets through, the guest accepts exactly those of at most 1024 bytes |
| Paths.ResolutionStaysBelow | src/agent/data-files.ts:117-121 | Resolved from any root, an accepted path is strictly below it at every step |
| Paths.AcceptedPathsResolveApart | src/agent/data-files.ts:117-121 | Accepted paths resolve to different places exactly when they differ |
| Paths.ParentRefusedExactly | src/agent/data-files.ts:136-138 | The node agent's second test refuses some accepted paths: exactly those below a directory whose name begins with two dots |
| Paths.ParentRefusedExample | src/agent/data-files.ts:136-138 | A concrete path of that kind |

## Left out

- Plumbing: HTTP and WebSocket servers, the user interface, VM launching, ptys, ssh-keygen, mkfs itself and signals; they appear as steps with arbitrary outcomes.
- Workspace service: audit events, the text of failures, storage quotas of rows and the relay operations for files, jobs and shells; they do not touch the state the properties are about.
- Lifecycle granularity: loop heads of the reconciler are separate steps, and so is the reconciliation that a create or a stop schedules, which allows more interleavings than the code has.
- Disks: a volume whose disk was removed stays marked, because a disk made later is empty; a refusal of the agent is a request applied without effect.
- WorkspaceService.WorkspaceService.RunReconciliation: owners' requests in between, and the answers to their earlier ones, are excluded; the theorems about runs cover every interleaving.
- SSH gateway: requests arrive normalised and the token digest is a parameter; a stream that closes before it is handed out is not released; a stream that has ended leaves the active set as one that has closed.
- SSH leases are records with ids that are never used again, instead of heap objects.
- Job engine: arguments, environments, signals and creation times; overlapping starts, whose limit check and insertion hold separate locks, are excluded by starting one job at a time.
- Terminal history: callers pass at most one read buffer, far below the size of the history; larger pieces are excluded.
- WorkspaceFiles.WorkspaceFiles.WalkDirBytes: which 20000 files are counted past the limit is left open, because it depends on the order of directory entries; failing directory reads are not modelled.
- WorkspaceFiles.WorkspaceFiles.Write: no I/O errors, hard links, special files or changes by the guest's shell during a write.
- GuestWorkspace.GuestWorkspace.Write: the quota and round-trip statements are for a tree the scan can count; single-segment paths are refused, as the code does.
- GuestWorkspace.GuestWorkspace.Read: termination is against the modelled server, not against a dishonest guest.
- File listings and owner, mode and modification time of files.
- DataFiles.StoredBytesNeverExceedTheQuota: one root has one name, and only writes and deletes of this class change the tree; the scan and the making of parents are single steps, which mutual exclusion justifies.
- Data volumes: destruction while callers are active, a crash that leaves a temporary file, and a failing removal.
- Guest channel: the pattern of the request id, the bound on timeouts and the port; a socket that still delivers data after it was destroyed is harmless and therefore allowed.
- GuestMessages.JobStatusReplyFits: numbers are at most 64 bits wide, and the reader takes them as exact integers, as JavaScript's does up to 2^53.
- TLS inspector: `normalizeHostname` is a parameter, any partial function of the name.
- EgressPolicy.Approve: host-name normalisation and the classification of texts by `isIP` are parameters; the block list spells its base addresses through the text function instead of literals.
- Sha256.DigestOf: stated for any word arithmetic whose sums of four can be reversed; `Sha256Hex` is its instance with 32-bit words.
- Delivery of a whole log over the event stream, terminal admission, capability tables, configuration checks, argument builders, NFS plans and the kernel manifest: finite or easy.
