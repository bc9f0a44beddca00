# Verified models of the host agent and the RC session engine

These Dafny modules model the parts of the repository in which the order of events, the exact
text that crosses a boundary, or a layered policy decides whether the program is correct, and
prove what those parts promise. Three groups of code are covered.

**The host agent's concurrency** (`cmd/shed-host-agent`). Each mutex-protected object is a class
whose methods are its critical sections, proved to compute a function on the object's state; a run
interleaves these functions for any number of callers.

- `credential_source.dfy`, `refresh_loop.dfy`, `control_token.dfy`: the single-flight token cache
  with its fail-closed latch, its timed refresh, and the per-server sources used by the desktop.
- `desktop_approvals.dfy`, `desktop_feed.dfy`, `desktop_server.dfy`: the approval channel, the
  replay ring, and the server object they share.
- `audit.dfy`: the bounded publish/subscribe that drops when full.
- `targets.dfy`, `supervisor.dfy`, `watcher.dfy`: the selected servers, the reconciler of their
  watcher groups, and the debounce loop that triggers it.

**The RC session engine** (`internal/rc`).

- `shell.dfy`, `shell_modes.dfy`: the command line, a shell reader that takes it apart again, and
  why the permission mode in it has to be checked.
- `rc.dfy`, `meta.dfy`, `create.dfy`: text checks and pane classification, the metadata and its
  round trip through a line-oriented dump, and the checks of Create that both rely on.
- `wait_ready.dfy`: the polling loop against an arbitrary pane.
- `trust_merge.dfy`, `trust_files.dfy`: the merge into claude's configuration, and the
  lock / read / write / rename protocol around it with crashes anywhere.

**Layered policy and its cache.** `aws_policy.dfy` and `aws_cache.dfy`.

`basics.dfy` holds the string functions of Go's library that the others need.

External answers are parameters of each run and may be anything: what a mint, STS or tmux answers,
what the pane shows, which system call fails, how long a command takes, the random jitter. Mint
results, captures and timer events arrive as steps that interleave freely with everything else.

## Where the code and its comments differ

The models follow the code.

- `cmd/shed-host-agent/supervisor.go:150-153` says groups restart when the URL changed; the code
  compares the whole target (line 176), and so does `Supervisors.SurvivesExactly`.
- `internal/rc/trust.go:47-51` promises to merge and never clobber. The code replaces a `projects`,
  or a project, that is not an object; `TrustMerge.ClobbersNothingExactly` gives the exact condition.
- `internal/rc/trust.go:125-127` promises never to lower an existing seen count. A count is lowered
  exactly when it is not written as an int64 literal and stands for more than 999
  (`TrustMerge.UpsellLoweredExactly`); 1e6 is one (`TrustMerge.ExponentIsLowered`).
- `internal/rc/trust.go:94-96` says any non-object decodes to nil; only `null` does, as the same
  comment goes on to say, and `TrustFiles.Parsed` treats it alone that way.
- `cmd/shed-host-agent/config.go:32-34` says the composite key keeps servers apart. It does for
  identical shed names and for server names without "/"; `AWSCaches.SafeExactly` states when the
  cache is safe and `AWSCaches.SlashMixesRoles` shows a pair that it mixes up.

## Model

| member | source | states |
|---|---|---|
| CredentialSources.CredentialSource.ObtainLocked | cmd/shed-host-agent/credmint.go:262-270 | joins the mint in flight if there is one and otherwise starts exactly one new one; no started call is touched |
| CredentialSources.CredentialSource.EnterLocked | cmd/shed-host-agent/credmint.go:212-231 | the whole locked section: refused when latched, the cached pair when unforced and not stale, otherwise a call to wait on, with the new state |
| CredentialSources.CredentialSource.Invalidate | cmd/shed-host-agent/credmint.go:235-239 | only the token is cleared |
| CredentialSources.CredentialSource.RefreshLocked | cmd/shed-host-agent/credmint.go:243-252 | a latched source mints nothing; otherwise joins or starts one mint without clearing the token |
| CredentialSources.CredentialSource.MintDone | cmd/shed-host-agent/credmint.go:274-289 | stores the pair, or latches on a pin mismatch, or changes nothing else on another failure; completes its call and clears `inflight` |
| CredentialSources.SingleFlight | cmd/shed-host-agent/credmint.go:140-148 | in every interleaving at most one mint runs and it is `inflight`; every waiter waits on it, one completion releases them all, and those who joined one call get one result |
| CredentialSources.OutcomesAreFinal | cmd/shed-host-agent/credmint.go:143-148 | what a call was completed with never changes, and once latched no mint is started again |
| CredentialSources.CompletedByItsMint | cmd/shed-host-agent/credmint.go:274-289 | what a completed call holds comes from its own mint: the minted pair, the terminal error with the server and cause, or the mint's error, and no token with an error |
| CredentialSources.MismatchIsLast | cmd/shed-host-agent/credmint.go:150-154 | a host-key mismatch is the last mint ever started, and every later caller gets that terminal error and no token |
| CredentialSources.ForcedTokensAreFresh | cmd/shed-host-agent/credmint.go:186-203 | a forced caller's token comes from a mint that commits after its locked section, and that also starts there unless one was in flight |
| CredentialSources.CachedIsLastStored | cmd/shed-host-agent/credmint.go:180-184 | a cached token is the last successful mint's, with no clear since |
| CredentialSources.CachedReturnIsExact | cmd/shed-host-agent/credmint.go:220-227 | an unforced cached return is exactly that pair, and more than the refresh window before its expiry (or it has none) |
| CredentialSources.EnterExactly | cmd/shed-host-agent/credmint.go:212-231 | in every state: the latched error, or the cached pair exactly when unforced and with no expiry or more than two hours before it, or the one mint in flight; and what the token, expiry and calls are afterwards |
| CredentialSources.RefreshKeepsServing | cmd/shed-host-agent/credmint.go:241-252 | a refresh keeps the cached pair, so whoever was served still is while it mints |
| CredentialSources.RefreshStepExactly | cmd/shed-host-agent/credmint.go:241-270 | in a run, a refresh leaves one mint in flight, the one before or a new one, and mints nothing once latched |
| CredentialSources.RunGoesOn | cmd/shed-host-agent/credmint.go:212-289 | a run can always go on with any caller, and with the completion of exactly the mint in flight |
| RefreshLoop.RandomIsDraw | cmd/shed-host-agent/credmint.go:324-325 | the jitter formula yields a value within a quarter of the base |
| RefreshLoop.DelayInRange | cmd/shed-host-agent/credmint.go:308-327 | every delay lies between one minute and twelve hours |
| RefreshLoop.DelayBySituation | cmd/shed-host-agent/credmint.go:308-327 | the delay without a mint so far, with life left, and once expired, each with its exact range |
| RefreshLoop.AttemptLeavesThreeEighths | cmd/shed-host-agent/credmint.go:311-327 | with at least 96 s of life, the next attempt comes while three eighths of it remain, for every jitter |
| RefreshLoop.RunRefreshLoop | cmd/shed-host-agent/credmint.go:294-306 | the loop on the object computes the rounds: one delay from the current expiry, then one refresh unless latched |
| RefreshLoop.FailingRunIsTheLoop | cmd/shed-host-agent/credmint.go:291-306 | the run of failing attempts studied below is that loop with every mint failing |
| RefreshLoop.FailedTickKeepsToken | cmd/shed-host-agent/credmint.go:241-252 | a failed refresh leaves token and expiry as they were |
| RefreshLoop.LifeAfterFailures | cmd/shed-host-agent/credmint.go:294-327 | after i failed attempts at least (3/8)^i of the life remains |
| RefreshLoop.AttemptsBeforeExpiry | cmd/shed-host-agent/credmint.go:294-327 | a token with life L gets k attempts before expiry whenever (3/8)^(k-1) L is at least 96 s |
| RefreshLoop.FreshExactly | cmd/shed-host-agent/credmint.go:119-131 | for lifetimes beyond the stale window, a token is refreshed outside that window for every jitter if and only if its lifetime is at least 5h20m less one nanosecond |
| RefreshLoop.MomentsExactly | cmd/shed-host-agent/credmint.go:212-306 | what waiting, the timer, a forced and an ordinary call each do to the cached pair and the timer |
| RefreshLoop.LoopStaysFresh | cmd/shed-host-agent/credmint.go:291-306 | with such lifetimes the pending timer always lies before the stale window, whatever happens between ticks |
| RefreshLoop.TokenNeverBlocks | cmd/shed-host-agent/credmint.go:150-154 | at every moment after the first mint a Token call is served from the cache, with a lifetime from that threshold on |
| RefreshLoop.NeverBlocksExactly | cmd/shed-host-agent/credmint.go:150-154 | over all runs, Token calls never block after the first mint if and only if the lifetime is at least that threshold |
| ControlTokens.Resolve | cmd/shed-host-agent/controltoken.go:57-74 | an unreadable configuration is an error; otherwise the first target of that name decides, with the error for each missing requirement in its order |
| ControlTokens.Provider.SourceFor | cmd/shed-host-agent/controltoken.go:76-87 | the same source while the target is unchanged, otherwise a new one; other names are untouched |
| ControlTokens.EverySourceRuns | cmd/shed-host-agent/controltoken.go:46-52 | under any mix of requests and completions each source goes through a run of its own, and every request's source belongs to its name and target |
| ControlTokens.RequestsAreServedFresh | cmd/shed-host-agent/controltoken.go:33-52 | per server name, for every run: a request that has called was never served from the cache, waits for a fresh mint, is refused only with the latched error, and any token it gets was minted for its own target after its call |
| ControlTokens.LookupReuses | cmd/shed-host-agent/controltoken.go:76-87 | a lookup is recorded, reuses the source of an unchanged target, makes one otherwise, and touches no other name |
| ControlTokens.CallReachesSource | cmd/shed-host-agent/controltoken.go:46-52 | a request's call is a forced call on its own source and nothing else |
| ControlTokens.RequestsGoOn | cmd/shed-host-agent/controltoken.go:46-52 | which steps a run of the provider can go on with |
| ControlTokens.LatchPersists | cmd/shed-host-agent/controltoken.go:46-52 | a mismatch stays latched across requests as long as later lookups see an unchanged target |
| DesktopServers.DesktopServer.Promote | cmd/shed-host-agent/desktop_server.go:349-361 | last writer wins; the connection to supersede, if another was active |
| DesktopServers.DenyOwned | cmd/shed-host-agent/desktop_server.go:371-379 | the loop removes exactly the requests of one connection, puts a denial into each of their empty channels, and leaves every other channel unchanged |
| DesktopServers.DesktopServer.Demote | cmd/shed-host-agent/desktop_server.go:363-380 | drops the consumer if it is that connection; its requests leave `pending` with a denial in their channel, every other request and channel is unchanged |
| DesktopServers.SurvivorsAreNotOwned | cmd/shed-host-agent/desktop_server.go:371-379 | the object's surviving requests are those of the interleaved model |
| DesktopServers.DemoteIsTheModels | cmd/shed-host-agent/desktop_server.go:371-379 | on channels, too, the object does to each pending request what the interleaved model does |
| DesktopServers.DesktopServer.TakeForAnswer | cmd/shed-host-agent/desktop_server.go:402-412 | a request leaves `pending` only for its owner |
| DesktopServers.DesktopServer.BeginRequest | cmd/shed-host-agent/desktop_server.go:318-328 | fails closed without a consumer; otherwise one new empty channel owned by the consumer |
| DesktopServers.DesktopServer.EndRequest | cmd/shed-host-agent/desktop_server.go:329 | the deferred delete removes that request only |
| DesktopServers.DesktopServer.ForwardAudit | cmd/shed-host-agent/desktop_server.go:436-446 | the bounded append and the connection the event goes to |
| DesktopServers.DesktopServer.ReplaySnapshot | cmd/shed-host-agent/desktop_server.go:450-460 | the last n events of the ring in order, none for n at or below zero |
| DesktopApprovals.StepKeepsInv | cmd/shed-host-agent/desktop_server.go:318-419 | every step keeps: a request holds exactly one of a place in `pending`, a decision on its way, a decision in its channel, a result |
| DesktopApprovals.OneDecisionEach | cmd/shed-host-agent/desktop_server.go:363-419 | each request's channel is offered at most one decision, no `default` arm is ever taken, and no caller is stranded |
| DesktopApprovals.OffersMeetEmptyChannels | cmd/shed-host-agent/desktop_server.go:372-376 | in every run each offer of a decision meets an empty channel |
| DesktopApprovals.FirstDecisionReaches | cmd/shed-host-agent/desktop_server.go:363-419 | the first answer of the owner, or the denial when it disconnects, is exactly what the caller gets, unless it gives up first |
| DesktopApprovals.OthersAreLeftAlone | cmd/shed-host-agent/desktop_server.go:363-419 | answers and disconnects of other connections leave a pending request and its channel unchanged |
| DesktopApprovals.BeginGoesToConsumer | cmd/shed-host-agent/desktop_server.go:318-328 | a request is owned by the consumer at its beginning, and without one it does not begin |
| DesktopApprovals.SendingDecidesFailure | cmd/shed-host-agent/desktop_server.go:336-338 | a request that cannot be sent fails with that error, and leaves `pending` at its end |
| DesktopApprovals.RequestSteps | cmd/shed-host-agent/desktop_server.go:329-346 | what receiving a decision, giving up and ending do for the caller |
| DesktopApprovals.RunGoesOn | cmd/shed-host-agent/desktop_server.go:208-419 | which steps a run can go on with, for each kind of step |
| DesktopApprovals.ConsumerIsLastPromoted | cmd/shed-host-agent/desktop_server.go:349-370 | the consumer is the most recently promoted connection, or none once that one is demoted |
| DesktopApprovals.NothingOwnedAfterDemote | cmd/shed-host-agent/desktop_server.go:368-379 | after demote no request is ever pending on that connection again, and whoever still waits for it has its answer |
| DesktopApprovals.ApprovalCameFromOwner | cmd/shed-host-agent/desktop_server.go:402-419 | an approval returned means the owning connection sent exactly it for that id while it was pending |
| DesktopFeed.RingIsLastHundred | cmd/shed-host-agent/desktop_server.go:436-440 | the ring always equals the last min(100, total) forwarded events |
| DesktopFeed.ReplayIsLatest | cmd/shed-host-agent/desktop_server.go:450-460 | in every run a replay of n events takes from the ring exactly the last min(n, ring length) events forwarded |
| DesktopFeed.FeedHasNoGap | cmd/shed-host-agent/desktop_server.go:242-244 | for a connection still the consumer at its replay, the events addressed to it are one contiguous range from no later than its promotion, reaching back as far as the replay, and what was replayed is exactly the events with those numbers |
| DesktopFeed.SupersededBeforeReplay | cmd/shed-host-agent/desktop_server.go:450-464 | for one superseded before its replay, the events (again those with their numbers) are contiguous if and only if the replay is empty, nothing came live, or the replay reaches back to where it stopped |
| DesktopFeed.NothingAfterLeaving | cmd/shed-host-agent/desktop_server.go:363-370 | once a connection left, nothing is addressed to it any more |
| DesktopFeed.FeedGoesOn | cmd/shed-host-agent/desktop_server.go:242-244 | which steps a run of the feed can go on with |
| Audit.Publish | cmd/shed-host-agent/audit.go:145-152 | every subscriber is offered the entry exactly once; with room in its buffer the entry is at the end of its queue |
| Audit.AuditLogger.LogEntry | cmd/shed-host-agent/audit.go:99-118 | appends to the open file if the write succeeds, and always offers the entry to every subscriber once, into its queue if there is room; a send never meets a closed channel |
| Audit.AuditLogger.Subscribe | cmd/shed-host-agent/audit.go:123-132 | a fresh channel of that capacity under a new id; the others are kept |
| Audit.AuditLogger.Unsubscribe | cmd/shed-host-agent/audit.go:133-140 | closes exactly that channel; a second call does nothing |
| Audit.EveryEntryAccountedFor | cmd/shed-host-agent/audit.go:99-152 | every entry published while subscribed is delivered, queued or dropped exactly once; delivered then queued is in log order without repeats; closed at most once |
| Audit.DeliveredIsWhatWasGot | cmd/shed-host-agent/audit.go:120-141 | delivered is exactly what the receiver took from its queue, and what it was handed while waiting on an unbuffered channel |
| Audit.PublishedIsQueued | cmd/shed-host-agent/audit.go:143-152 | in every run an entry published to a live subscriber goes to the end of its queue if there is room, otherwise to a waiting receiver, otherwise it is lost |
| Audit.DropOnlyWhenFull | cmd/shed-host-agent/audit.go:143-152 | an entry is dropped if and only if the subscriber is live, its buffer is full and no receiver waits; nothing is sent after unsubscribe |
| Audit.RunGoesOn | cmd/shed-host-agent/audit.go:99-152 | entries, subscribers and unsubscribers come at any time, and exactly what is queued can be received |
| Targets.ResolveTargets | cmd/shed-host-agent/config.go:162-179 | the legacy server alone, or the selected servers; names are distinct |
| Targets.FirstOfEachExactly | cmd/shed-host-agent/config.go:162-179 | a target is kept if and only if it is selected and no earlier discovered one has its name |
| Targets.SelectedExactly | cmd/shed-host-agent/config.go:111-124 | an omitted or all-selecting selector picks every server, a list exactly its members, an empty list none |
| Targets.SecureExactly | cmd/shed-host-agent/config.go:149-156 | secure are exactly the URLs that begin with https:// in any mixture of cases |
| Supervisors.BuildWant | cmd/shed-host-agent/supervisor.go:161-164 | the loop computes the desired set by name |
| Supervisors.LastWins | cmd/shed-host-agent/supervisor.go:161-164 | of several desired entries with one name the last is the one wanted |
| Supervisors.StopChanged | cmd/shed-host-agent/supervisor.go:174-181 | exactly the groups that are gone or whose whole target changed are cancelled; the others stay |
| Supervisors.StartMissing | cmd/shed-host-agent/supervisor.go:184-189 | exactly the wanted names without a group get a new one |
| Supervisors.Supervisor.Reconcile | cmd/shed-host-agent/supervisor.go:154-204 | the whole new state: targets match the desired set, up-to-date groups are the same objects, exactly the groups that no longer run are cancelled and waited for, closed means no change; and when to warn |
| Supervisors.Supervisor.Shutdown | cmd/shed-host-agent/supervisor.go:208-221 | every running group is cancelled and waited for, no other is, and the supervisor is closed |
| Supervisors.NothingLeaks | cmd/shed-host-agent/supervisor.go:154-221 | over all sequences of calls every group ever started runs or is cancelled, never both; after an open Reconcile the running targets are the desired ones |
| Supervisors.ClosedForGood | cmd/shed-host-agent/supervisor.go:206-221 | after Shutdown nothing runs or starts |
| Supervisors.SurvivesExactly | cmd/shed-host-agent/supervisor.go:166-189 | a group survives if and only if its whole target is still wanted, is cancelled if and only if it does not, and one is started exactly for each name without an up-to-date group |
| Supervisors.RepeatIsNoOp | cmd/shed-host-agent/supervisor.go:150-153 | reconciling again with the same set changes nothing |
| Supervisors.RunsWhatIsSelected | cmd/shed-host-agent/supervisor.go:161-164 | fed by ResolveTargets, exactly the first discovered server of each selected name runs |
| Watchers.RunFsnotifyLoop | cmd/shed-host-agent/watcher.go:72-106 | the loop with one timer computes the log of changes and reconciles; the timer is armed if and only if some change has not been followed by a reconcile, due one debounce after the last |
| Watchers.QuietBeforeReconcile | cmd/shed-host-agent/watcher.go:87-94 | each reconcile comes at least one debounce after every earlier change |
| Watchers.ReconcilesNeverExceedChanges | cmd/shed-host-agent/watcher.go:87-103 | never more debounced reconciles than changes |
| Watchers.EveryChangeIsServed | cmd/shed-host-agent/watcher.go:100-103 | unless shut down, every change is followed by a reconcile, at the latest when the timer fires one debounce after the last change, whatever unrelated events came since |
| Watchers.NoChangeIsMissed | cmd/shed-host-agent/watcher.go:80-94 | every change before a shutdown is seen, with its time |
| Watchers.OnlyWatchedIsLogged | cmd/shed-host-agent/watcher.go:84-86 | only events for the watched file count as changes |
| Watchers.OnlyTimerReconciles | cmd/shed-host-agent/watcher.go:100-103 | only the timer reconciles |
| Shell.QuoteIsOneWord | internal/rc/rc.go:174-178 | the shell reads a quoted string as exactly that one word, for every string |
| Shell.CommandReadsAsArgv | internal/rc/rc.go:199-236 | for every display name and valid mode the command is read as exactly the intended arguments |
| Shell.InteractiveReadsAsArgv | internal/rc/rc.go:232-234 | the interactive form is read as `bash -ic CMD`, and CMD as the intended arguments |
| ShellModes.IntendedExactly | internal/rc/rc.go:192-231 | for every display name and any mode at all, the command is read as intended if and only if there is no mode or it is a word of plain characters |
| ShellModes.BlankInjectsArgument | internal/rc/rc.go:211-231 | a blank in the mode injects a further argument |
| ShellModes.UncheckedModeBreaksOut | internal/rc/rc.go:211-231 | a mode with an operator character in it is not read as an argument at all |
| RC.NormalizeIsOnePass | internal/rc/rc.go:149-153 | the two passes equal one pass that maps CRLF or a lone CR to LF |
| RC.NormalizeIdempotent | internal/rc/rc.go:149-153 | no CR is left and a second application changes nothing |
| RC.ReadyExactly | internal/rc/rc.go:285-326 | when a pane is ready, per kind, from the patterns on it; it then carries the session's URL |
| RC.PromptsComeFirst | internal/rc/rc.go:285-326 | when a pane reads as needs-trust, needs-auth, reconnecting or starting, each exactly, and with which URL |
| RC.ManagedExactly | internal/rc/rc.go:328-339 | managed versions are the digit texts that stand for 2 up to the largest int |
| RC.ParseKindExactly | internal/rc/rc.go:341-350 | each kind's text reads as that kind, every other text as claude-broker |
| Meta.BuildEnvArgs | internal/rc/meta.go:32-54 | succeeds if and only if every value is single-line, with `-e` and the line of each pair in order; otherwise names the first bad key |
| Meta.ShowEnvironment | internal/rc/tmux.go:91-105 | keeps exactly the lines with the prefix, in order; empty when the command fails |
| Meta.ParseEnv | internal/rc/meta.go:58-71 | splits each such line at its first "="; a later line wins |
| Meta.RereadPairs | internal/rc/meta.go:56-71 | read back from any dump that holds them, the written pairs are found with their values, and no other key |
| Meta.RoundTrip | internal/rc/meta.go:82-134 | a stamped session is read back as managed, with the same slug and kind and every other field its trimmed original |
| Meta.UnmanagedShowsNothing | internal/rc/meta.go:82-110 | without a managed version a session reads as an unmanaged claude-broker and shows none of its metadata |
| Meta.Rfc3339Exactly | internal/rc/meta.go:73-80 | the creation times kept are exactly the texts of digits in the UTC shape, with or without a fraction |
| Meta.NewlineForges | internal/rc/meta.go:20-27 | an unchecked value with a line break would set another key, so the single-line check is needed |
| Creation.Prepare | internal/rc/ops.go:55-123 | accepts exactly the options that pass all checks, and then what it hands to tmux |
| Creation.AcceptableExactly | internal/rc/ops.go:56-115 | what is accepted, by kind, prompt characters, mode, slug, directory and one-line values |
| Creation.AcceptedCommandIsIntended | internal/rc/ops.go:123 | once accepted, the command is read as the intended arguments, directly or through `bash -ic` |
| Creation.AcceptedSessionReadsBack | internal/rc/ops.go:92-112 | every later probe reports the session as it was created: slug, kind, id, directory, target, creator, creation time and display name |
| WaitReady.SendLine | internal/rc/tmux.go:119-133 | the text is handed over first and once, each command runs only if the one before went through, Enter is last; several lines go through a paste buffer |
| WaitReady.DeliversExactly | internal/rc/tmux.go:119-149 | the text is carried by the first command alone, in the right form, and submitted exactly when everything before went through |
| WaitReady.SendBlock | internal/rc/tmux.go:135-149 | set, paste, submit, stopping at the first failure |
| WaitReady.AcceptBypassPrompt | internal/rc/tmux.go:156-164 | Enter follows Down only if Down went through |
| WaitReady.React | internal/rc/ops.go:165-201 | what one pass through the loop body sends and sets |
| WaitReady.Poll | internal/rc/ops.go:160-201 | the loop with its two flags follows the rule stated on the history of captures and keys, stops exactly when it settles or the time is up, and returns the last classification |
| WaitReady.WaitUntilReady | internal/rc/ops.go:154-208 | and the whole prompt is delivered if and only if that state is ready and there is a prompt |
| WaitReady.OneTrustEnter | internal/rc/ops.go:188-195 | at most one trust Enter, right after a capture that shows the trust prompt |
| WaitReady.DownOnlyAtDialog | internal/rc/ops.go:175-186 | Down only under bypass, right after the dialog, never after an acceptance |
| WaitReady.PromptsAreAnswered | internal/rc/ops.go:175-195 | every dialog under bypass until accepted, and the first trust prompt, is answered |
| WaitReady.TypesOnlyWhenReady | internal/rc/ops.go:202-207 | the prompt is typed only when the final capture classified ready |
| WaitReady.GoneIsTheEnd | internal/rc/ops.go:167-172 | after finding the session gone nothing is captured or sent, and the outcome is dead |
| WaitReady.StopsAtFirstFinal | internal/rc/ops.go:164-201 | the loop stops at the first turn that finds the session gone or any state but starting that calls for no key, and before the time is up only there |
| WaitReady.ReportsLastSeen | internal/rc/ops.go:161-207 | the state reported is that of the last telling capture: dead if gone, the pane's classification, or starting without any |
| WaitReady.AtMost27Captures | internal/rc/ops.go:25-26 | between 1 and 27 captures; exactly 27 when nothing settles and commands take no time |
| WaitReady.OneOutcome | internal/rc/ops.go:164-201 | the number of turns is determined by what tmux answers |
| TrustMerge.Merge | internal/rc/trust.go:101-134 | the step-by-step merge computes the closed form for one work directory |
| TrustMerge.MergeOfMerge | internal/rc/trust.go:101-134 | merging one set of directories after another is merging their union |
| TrustMerge.OrderIsIrrelevant | internal/rc/trust.go:101-134 | the merge commutes and is idempotent |
| TrustMerge.ClobbersNothingExactly | internal/rc/trust.go:47-51 | at every path except those it writes, passes through or fills in, the tree is the same as before, absences included, and at those it passes through no other value is lost, if and only if `projects` and the project are objects or absent |
| TrustMerge.UpsellLoweredExactly | internal/rc/trust.go:125-130 | a count is lowered if and only if it is not an int64 literal and stands for more than the floor, however other notations are read |
| TrustMerge.NumberValueReadsInts | internal/rc/trust.go:34-41 | reading JSON literals as decimal numbers agrees with ParseInt on every int64 literal |
| TrustMerge.IntTextParses | internal/rc/trust.go:34-41 | every 64-bit integer in decimal is read back, every larger one is not |
| TrustMerge.UpsellNeverLowered | internal/rc/trust.go:125-130 | a count written as an int64 literal is never lowered, one at or above the floor stays as it is, and the result reads as at least the floor |
| TrustMerge.ExponentIsLowered | internal/rc/trust.go:34-41 | the count 1e6 stands for a million and is lowered to 999 |
| TrustMerge.MergedIsTrusted | internal/rc/trust.go:111-134 | each directory is trusted, the gate is cleared, an existing theme or warning choice stays, and absent ones become dark and true |
| TrustFiles.ConfigDir.AtomicWrite | internal/rc/trust.go:144-173 | whichever call fails, the file is untouched and no temporary file is left; otherwise it holds exactly the data |
| TrustFiles.ConfigDir.Preseed | internal/rc/trust.go:52-142 | an absent, empty or null file becomes the printed merge of nothing, an object that of its fields; any other file is an error and left untouched, and so is every file when a call or the printing fails |
| TrustFiles.StepKeepsInv | internal/rc/trust.go:64-142 | every step of every process, crashes included, keeps the file equal to the initial one merged with the renamed directories |
| TrustFiles.FileIsMergeOfRenamed | internal/rc/trust.go:42-51 | at every moment of every run the file is exactly that merge: never torn, nothing lost, order irrelevant |
| TrustFiles.CompletedInsertIsNeverLost | internal/rc/trust.go:64-77 | once a process has renamed, its directory is trusted in the file forever after |
| TrustFiles.ParsedExactly | internal/rc/trust.go:79-100 | which files are refused, and what every other one starts from |
| TrustFiles.MalformedIsUntouched | internal/rc/trust.go:90-93 | a non-empty file that does not decode, or decodes to neither an object nor null, is never touched by any run |
| TrustFiles.MutualExclusion | internal/rc/trust.go:64-77 | at most one process is between taking and releasing the lock, whatever the JSON engine does |
| TrustFiles.InsertIsReachable | internal/rc/trust.go:64-142 | in every run a process waiting while the lock is free can still bring its directory into the file |
| AWSPolicies.Resolve | cmd/shed-host-agent/config.go:317-343 | overwriting the record layer by layer computes the overlay of the layers |
| AWSPolicies.MostSpecificWins | cmd/shed-host-agent/config.go:312-316 | for role, mode and session duration each, the most specific layer that sets it decides it, whatever the other fields are |
| AWSPolicies.ResolvedByFallback | cmd/shed-host-agent/config.go:312-351 | for every pair and field: the shed's setting, else the server's, else the top-level one, and assume-role when no mode is set |
| AWSPolicies.Enabled | cmd/shed-host-agent/config.go:353-371 | true if and only if some pair, over all strings, resolves to passthrough or to a role |
| AWSPolicies.Validate | cmd/shed-host-agent/config.go:556-588 | accepts if and only if the removed map is empty and every pair, over all strings, resolves to a known mode; otherwise which error |
| AWSCaches.CheckExactly | cmd/shed-host-agent/aws_backend.go:107-131 | passthrough pairs are passed through, pairs without a role refused, a live entry is served as it is, and anything else assumes the pair's role |
| AWSCaches.StsBackend.CheckCache | cmd/shed-host-agent/aws_backend.go:107-131 | computes that decision |
| AWSCaches.StsBackend.Store | cmd/shed-host-agent/aws_backend.go:163-165 | one entry is set, the others stay |
| AWSCaches.StsBackend.GetCredentials | cmd/shed-host-agent/aws_backend.go:107-176 | one whole call: passthrough exactly for passthrough pairs, refused exactly without a role, a live entry as cached, otherwise what STS answers; and the new cache in every case |
| AWSCaches.StsBackend.Status | cmd/shed-host-agent/aws_backend.go:233-255 | for passthrough the source profile and the file's expiry, otherwise the resolved role and the expiry of the pair's cache entry |
| AWSCaches.SafeExactly | cmd/shed-host-agent/aws_backend.go:119-165 | for all interleavings over a set of pairs, what is returned was assumed for the pair's role and a cached one had more than refreshBefore left, if and only if no two of the pairs share a key without sharing a role |
| AWSCaches.ServedByPolicy | cmd/shed-host-agent/aws_backend.go:107-117 | in every run exactly the passthrough pairs are passed through, and exactly the pairs with neither passthrough nor a role are refused |
| AWSCaches.FailureEndsCall | cmd/shed-host-agent/aws_backend.go:146-151 | a failed AssumeRole ends its call and changes nothing else |
| AWSCaches.KeyIsInjective | cmd/shed-host-agent/config.go:32-35 | the key tells pairs apart for equal shed names, and for server names without "/" |
| AWSCaches.SafeWithoutSlash | cmd/shed-host-agent/aws_backend.go:119-121 | without "/" in server names every interleaving is safe under every policy |
| AWSCaches.SlashMixesRoles | cmd/shed-host-agent/config.go:35 | with one, a session assumed for another pair's role is handed out |
| AWSCaches.PassthroughNeverTouchesCache | cmd/shed-host-agent/aws_backend.go:178-181 | a passthrough pair's call is done at once, whatever is cached, and no step of it changes anything |

## Left out

- Foreign engines: the JSON, YAML and regular-expression engines, SSH, STS, tmux and sockets; their answers are parameters of the models. Fixed patterns on a pane are the fields of `RC.Pane`.
- Shell.Tokenize: does not expand or interpret unquoted special characters but refuses them, because a successful reading then also shows that none is left unquoted.
- ShellModes.IntendedExactly: is about that reader; a few characters it refuses, such as ":", would be harmless to a real shell.
- Shell.CommandReadsAsArgv: speaks of characters as Unicode scalars; a NUL or an invalid byte in a display name is not modelled (Create rejects control characters).
- RC.Kind: an `UnknownKind` carries any text, although in the code the text of a known kind is that kind; Create rejects every unknown one.
- Meta.ParseEnv: works on characters, and the order of lines in the dump is arbitrary.
- RefreshLoop.RandomIsDraw: the jitter is a real number truncated to nanoseconds; the rounding of the floating-point product is not modelled.
- RefreshLoop.TokenNeverBlocks: mints succeed at once, with one lifetime for all of them; a mint that takes time or fails is covered by `CredentialSources` and `RefreshLoop.AttemptsBeforeExpiry`.
- RefreshLoop.RunRefreshLoop: has the source to itself, and every mint reports before the next wait; other callers and slow mints are the subject of `CredentialSources`. It runs for a given number of rounds, which stands for the cancellation of its context.
- CredentialSources.CredentialSource.MintDone: closing the `done` channel is one step with the commit before it; nobody can observe the moment in between.
- DesktopServers.DenyOwned: builds the remaining map as a local value while the code deletes from the field in place; the lock is held throughout, so nobody sees a difference. The same goes for `Supervisors.StopChanged`, `Supervisors.StartMissing` and `Supervisors.CancelAll`.
- DesktopApprovals.OneDecisionEach: request ids are taken to be distinct, as random ids are; socket write failures appear only as a failed request.
- DesktopFeed.FeedHasNoGap: states which events are addressed to a connection, not the order of live and replayed ones nor their delivery, which the code does not promise.
- Supervisors.Supervisor.Reconcile: says which groups it waits for, not how long that takes; health reports are left out.
- Audit.AuditLogger.LogEntry: stamping an entry that has no timestamp.
- Watchers.QuietBeforeReconcile: rests on `Timer.Reset` discarding a tick that is already in the timer's channel. Go promises that since version 1.23, for modules that declare at least that version; `go.mod` declares 1.25.
- Watchers.RunFsnotifyLoop: the poll loop, the initial reconcile and the fallback from one to the other.
- WaitReady.Poll: one turn is one capture with the keys it leads to; each sleep is taken to last at least its interval, and any further delay counts to the same turn.
- TrustFiles.ConfigDir.AtomicWrite: file modes, the location of the file, and what survives a loss of power; a crash ends one process and releases its lock.
- TrustFiles.FileIsMergeOfRenamed: assumes that the tree decoded from the initial file, with work directories merged in, reads back as it was printed, and that every writer takes the lock; claude itself writes the same file without it.
- TrustMerge.ClobbersNothingExactly: starts from the decoded tree; duplicate keys and bytes after the first JSON value are gone by then.
- AWSPolicies.Validate: which of several bad modes is named depends on the iteration order, so any of them may be.
- AWSCaches.StsBackend.Status: the expiry that the credentials file shows is a parameter; how the file is scanned is left out, and so are session durations in AssumeRole calls.
- The bus handlers, guest proxies, command-line parsing, status rendering, the Docker and SSH policies, egress backoff and log text: plumbing whose claims would be easy members.
