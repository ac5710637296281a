# rdw: a verified model

rdw is a daemon that routes lines from processes to panes in a browser. These modules model the stateful cores under its
HTTP, socket and browser plumbing, and prove what each keeps, over every run and every input.

- **The session** (`SessionModel`, `SessionTheorems`, `SessionEffects`, `SessionAnswers`, `Manager`, `Router`, `Server`,
  `Splits`, `SplitsAndCloses`, `Schedules`). Windows own panes, a router owns one pipeline per pane, and saved layouts are deep copies.
  `SessionModel.Step` is the state machine of the request handlers on values; `Manager`, `Router` and `Server` are the
  classes with real window, pane and pipeline objects, each method proved to take exactly the step of the state machine.
  `SessionAnswers` says when each answer is given and what it changes; the other theorems are about all runs of the
  machine.
  `Splits` breaks the split handler into its separately locked parts and interleaves any number of them;
  `SplitsAndCloses` interleaves them with the two halves of pane closes, and `Schedules` says which requests are safe
  under every schedule.
- **The hub** (`HubModel`, `Hub`, `Auth`, `Revocation`). Every method is one atomic step on clients with bounded queues; the
  model keeps the broadcast history and what every client consumed. `Revocation` interleaves the two halves of a token
  revocation with the two halves of a connect.
- **The relay** (`Relay`) against a server that may fail any send, and **the framing reader** (`Framing`, `Base64`) it reads
  from.
- **The pipeline** (`Control`, `PipelineModel`, `Pipeline`, `Scrollback`, `KVStore`, `EndToEnd`): from a raw line through
  control parsing, base64, filters, the ring buffer, the sinks and the byte-accounted store. `Delivery` puts the relay in
  front of it: a send fails because the pipeline rejects the line.
- **The limiter** (`RateLimiter`), and **the renderers** (`Escape`, `Scans`, `HighlightJson`, `Markdown`, `MarkdownInline`,
  `MarkdownShown`) with a model of what a browser shows of their HTML.

A Go string is a `string` here with one char per byte. Clocks, random bytes, the hash, the outcome of each send, the filters
and the answers of the context are parameters.

Where the code and its documentation disagree the model follows the code:

- the relay drops the newest line when its queue is full (`internal/pipe/pipe.go:86-89`), not the oldest
  (`docs/requirements.md:65`): `Relay.DropsIff`, `Relay.NewestIsDropped`;
- a key=value line with a rejected pair keeps the pairs before it (`internal/pipeline/pipeline.go:211-220`), so it is not
  atomic as `docs/manual.md:1023-1026` says; `PipelineModel.KVLineAtomicIff` says when it is;
- the limiter's windows are fixed, so it lets up to 19 requests of an address through in a minute and not the 10 of
  `docs/requirements.md:314`: `RateLimiter.NineteenInAMinute`; `RateLimiter.MoreThanTenIff` says when it is more than ten;
- a verbatim payload that is itself a decodable `b64:` line is still decoded; `PipelineModel.VerbatimIsLiteralIff`.

Other behaviour that a reader of the code may not expect, each with its condition and an input that shows it:

- a rejected split takes out the first pane with its id, which need not be the one just added
  (`SessionTheorems.RollbackRemovesTheNewPaneIff`, `Server.Server.PaneSplit`, `SessionEffects.RejectedSplitReplacesAPane`);
- closing a window strands the pipelines of its panes, the only handler that does, and a stranded id can not be used again
  for a split (`SessionEffects.StepKeepsTightIff`, `SessionEffects.ClosingStrandsAPipeline`,
  `SessionEffects.StrandedIdIsRefused`);
- closing a window in front of the active one moves the focus, unless the active one is the last (`SessionEffects.CloseKeepsFocusIff`,
  `SessionEffects.ClosingMovesTheFocus`);
- splits and pane closes of the same id, run at once, can end with a pane that has no pipeline: some schedule does so
  exactly when one id has two closes, and two splits, or three if there is no pane of it to begin with
  (`Schedules.SafeIff`, `Schedules.RaceLosesAPipeline`);
- the reconnect marker panics when a revocation or an eviction closed the channel since the connection registered
  (`HubModel.MarkerPanicsIff`, `HubModel.MarkerFateIff`, `HubModel.ClosedBeforeItsMarker`);
- one failed flush followed by a successful live send reorders lines (`Relay.ExactIff`, `Relay.LiveLineOvertakes`);
- a line the pipeline rejects counts as not delivered, so the relay queues it: one that no store accepts blocks the queue
  for good, and every retry writes its good pairs again (`Delivery.ArriveIff`, `Delivery.HopelessIff`,
  `Delivery.HopelessBlocksTheQueue`, `Delivery.RetryRevertsAValue`);
- `highlightJSON` slices past the end of a text that breaks off right after a backslash inside a string literal
  (`HighlightJson.Highlight`, `HighlightJson.QuoteAndBackslash`); its one caller passes indented JSON (`internal/format/json.go:39-41`), whose literals are
  closed, so `Format` never gets there;
- `renderMarkdown` never returns on a line such as `#tag` outside a fence (`Markdown.RenderMarkdown`, `Markdown.TagIsStuck`);
- bytes of non-ASCII characters outside code, emphasis and links are widened one by one and come out garbled
  (`MarkdownInline.InlineShowsIff`, `MarkdownInline.AccentIsGarbled`);
- a numbered line loses its text up to the first period and space, or all of it (`MarkdownShown.NumberedIsWholeIff`,
  `MarkdownShown.NumberedLineIsLost`).

## Model

| member | source | states |
|---|---|---|
| `SessionTheorems.StepKeepsInv` | internal/server/routes.go:262-415 | every handler keeps: window names distinct and non-empty, active index in range, at most 64 panes a window, pane ids distinct across windows, every pane has a pipeline, every saved layout is itself well formed |
| `SessionTheorems.RunKeepsInv` | internal/server/routes.go:262-528 | the same over every run of handlers |
| `SessionTheorems.SplitKeepsInv` | internal/server/routes.go:321-381 | an accepted split adds exactly one pane with its id, a rejected one leaves the number of panes of every id unchanged, and both keep the invariant |
| `SessionTheorems.RollbackRemovesTheNewPaneIff` | internal/server/routes.go:366-377 | which pane a rollback takes out: the one just added exactly when no window up to the parent's held the id, and then the session is the one before |
| `SessionEffects.RejectedSplitReplacesAPane` | internal/server/routes.go:366-377 | from a session with one pane, a split beside a new pane that names the old one is rejected, and the old pane is gone |
| `SessionTheorems.SameSlot` | internal/session/manager.go:236-249 | with distinct ids a search by id finds the very pane, so no handler acts on another one |
| `SessionTheorems.RemoveEachIsDrop` | internal/server/routes.go:733-738 | removing targets one by one, in any order and with repetitions, drops exactly the panes they name from every window, in order |
| `SessionTheorems.GroupKillRemovesExactlyTheGroup` | internal/server/routes.go:709-761 | a group kill leaves of every window exactly the panes outside the group, in order, and deregisters exactly the group's pipelines |
| `SessionTheorems.SwapKeepsWellFormed` | internal/server/routes.go:767-816 | a swap keeps the invariant and the number of panes of every id |
| `SessionTheorems.SwapAcross` | internal/server/routes.go:796-812 | across windows each pane lands in the other's slot and every slot keeps its split and size |
| `SessionTheorems.SwapUndoesItself` | internal/server/routes.go:767-816 | swapping the same two panes twice, within or across windows, is the identity on the whole session |
| `SessionTheorems.SaveRunApplyRestores` | internal/server/routes.go:465-528 | save, any run not overwriting the layout, apply: windows, panes and focus of save time, and pipelines (old minus (before minus after)) plus after |
| `SessionTheorems.LayoutSurvivesRun` | internal/server/routes.go:474-485 | no later edit leaks into a saved layout |
| `SessionEffects.StepKeepsTightIff` | internal/server/routes.go:277-284 | pipelines stay exactly the panes under every handler, unless and only unless it closes a window that still holds panes |
| `SessionEffects.ClosingStrandsAPipeline` | internal/server/routes.go:277-284 | closing a window that holds a pane leaves its pipeline behind |
| `SessionEffects.RunStaysTight` | internal/server/routes.go:262-528 | over a run that closes only empty windows the pipelines are exactly the panes |
| `SessionEffects.StrandedIdIsRefused` | internal/server/routes.go:361-377 | a split that names a pipeline without a pane is never accepted and changes nothing at all |
| `SessionEffects.CloseKeepsFocusIff` | internal/session/manager.go:108-128 | the windows left keep order and content, and the focused window stays exactly when the closed one is behind it, or it is the last and not itself closed; else the focus moves one on |
| `SessionEffects.ClosingMovesTheFocus` | internal/session/manager.go:120-125 | with the second of three windows in focus, closing the first focuses the third |
| `SessionEffects.SplitAppends` | internal/server/routes.go:346-381 | an accepted split appends the one new pane to its parent's window and changes nothing else |
| `SessionEffects.TitleChangesOneTitle` | internal/server/routes.go:906-941 | renaming a pane changes its title (the Label field) and no other field of any pane |
| `SessionEffects.PaneCloseDropsOne` | internal/server/routes.go:403-417 | closing a pane drops exactly it, and the others keep their order |
| `SessionAnswers.CreateAnswers` | internal/server/routes.go:262-275 | a window is created exactly when the name is not empty and not taken; it goes behind the others, empty, and any other answer changes nothing |
| `SessionAnswers.CloseAnswers` | internal/server/routes.go:277-284 | a window is closed exactly when it exists and is not the only one; any other answer changes nothing |
| `SessionAnswers.RenameAnswers` | internal/server/routes.go:286-300 | the one window of the old name gets the new one, exactly when the new one is not empty and not taken; everything else stays |
| `SessionAnswers.FocusAnswers` | internal/server/routes.go:302-315 | the focus goes to the one window of that name, and nothing else changes |
| `SessionAnswers.SplitAnswers` | internal/server/routes.go:321-381 | the answer to every split: refused for its direction or ids or for a parent that is not there, which changes nothing, accepted exactly when the parent's window has room and the new id no pipeline, and else a conflict |
| `SessionAnswers.NewPaneCarriesTheRequest` | internal/server/routes.go:358-364 | the pane an accepted split adds has the id, group, privacy, direction and size asked for, and no title, scrollback size or formatter |
| `SessionAnswers.PaneCloseAnswers` | internal/server/routes.go:403-417 | a pane is closed exactly when the id is well formed and there is such a pane; any other answer changes nothing |
| `SessionAnswers.GroupKillAnswers` | internal/server/routes.go:709-761 | a kill is performed exactly when some pane is of that group; any other answer changes nothing |
| `SessionAnswers.TitleAnswers` | internal/server/routes.go:906-941 | a title is set exactly when it is not empty and there is such a pane; any other answer changes nothing |
| `SessionAnswers.SwapAnswers` | internal/server/routes.go:767-816 | panes are swapped exactly when both ids are well formed and there are such panes; any other answer changes nothing |
| `SessionAnswers.SwapIs` | internal/server/routes.go:784-815 | what a performed swap leaves in every slot: across windows the two panes trade slots and the slots keep split and size, inside one window the panes stay and trade split and size; every other pane and everything else is as it was |
| `SessionAnswers.SaveAnswers` | internal/server/routes.go:465-485 | a layout is saved exactly when it has a name; it is the session as it stands, and nothing else changes |
| `SessionAnswers.ApplyAnswers` | internal/server/routes.go:487-528 | a layout is applied exactly when there is one of that name; windows and focus become the saved ones, and an id has a pipeline afterwards exactly when the layout has a pane of it, or it had one already and no pane |
| `Splits.RunIsBalanced` | internal/server/routes.go:366-377 | under any interleaving of the parts of any number of splits: panes with an id = panes before + splits added but not settled + one if registered, for every id |
| `Splits.RollbackFindsAPane` | internal/session/manager.go:219-233 | a rollback of concurrent splits always finds a pane to remove |
| `Splits.QuiescenceRestoresInv` | internal/server/routes.go:361-377 | once no split is in flight the session invariant holds again |
| `Splits.FreshIdSettles` | internal/server/routes.go:361-377 | of any number of concurrent splits naming one fresh id, exactly one pane and one pipeline exist at the end iff some AddPane succeeded |
| `Splits.FreshIdCount` | internal/router/router.go:65-78 | at every moment the panes with a fresh id are the splits added but not settled plus one if registered |
| `SplitsAndCloses.RunKeepsBalance` | internal/server/routes.go:361-415 | under any interleaving of splits and pane closes, for every id: panes + closes under way + missed deregistrations - splits under way - pipeline - missed rollbacks never changes |
| `SplitsAndCloses.Settlement` | internal/server/routes.go:361-415 | once nothing is under way, panes less pipelines of an id are its missed rollbacks less its missed deregistrations and what was stranded before |
| `SplitsAndCloses.QuiescenceRestoresInvIff` | internal/server/routes.go:361-415 | how a finished run settles: the session invariant holds exactly when no id has more rollbacks that found no pane than deregistrations that found no pipeline plus pipelines stranded before |
| `SplitsAndCloses.MissNeedsAClose` | internal/server/routes.go:372-374 | a rollback misses its pane only behind a close of the same id that is under way or that found no pipeline |
| `Schedules.SafeIff` | internal/server/routes.go:361-415 | told from the requests and the state before them: every schedule of splits and pane closes ends with the session invariant exactly when each id has at most one close, or at most one split, or at most two splits and no pane to begin with |
| `Schedules.TameSettles` | internal/server/routes.go:361-415 | such an id ends every schedule with no more panes than pipelines, whatever happens to other ids |
| `Schedules.CastBreaks` | internal/server/routes.go:361-415 | for any other id there is a schedule, here constructed, that ends with its one pane without a pipeline |
| `Schedules.RaceLosesAPipeline` | internal/server/routes.go:361-415 | one pane, two closes and two splits of its id: a schedule that leaves a pane without a pipeline |
| `Server.Server.WindowCreate` | internal/server/routes.go:262-275 | the handler on heap objects takes the state machine's step, status included |
| `Server.Server.WindowClose` | internal/server/routes.go:277-284 | likewise |
| `Server.Server.WindowRename` | internal/server/routes.go:286-300 | likewise |
| `Server.Server.WindowFocus` | internal/server/routes.go:302-315 | likewise |
| `Server.Server.PaneSplit` | internal/server/routes.go:321-381 | likewise; earlier pipelines stay the same objects, an accepted split gets a fresh empty one, and a rejected one leaves every window its very pane objects iff the window was full or the id was in no window up to the parent's |
| `Server.Server.SplitWindow` | internal/server/routes.go:353-381 | the part of a split behind its checks, with the same promises |
| `Server.Server.AddRegistered` | internal/server/routes.go:361-377 | AddPane, Register and rollback together: pane and pipeline appear both or not at all |
| `Server.Server.RegisterOrUndo` | internal/server/routes.go:371-377 | the pipeline of the pane just added, or the rollback, with its effect on the pane objects of every window |
| `Server.Server.PaneClose` | internal/server/routes.go:403-417 | the state machine's step; the pipelines left are the same objects |
| `Server.Server.LayoutSave` | internal/server/routes.go:465-485 | the state machine's step: the layout is a deep copy |
| `Server.Server.LayoutApply` | internal/server/routes.go:487-528 | the state machine's step; panes present before and after keep their pipeline object and so their scrollback, new ones get fresh empty pipelines |
| `Server.Server.Reconcile` | internal/server/routes.go:499-524 | the loops over old and new ids give pipelines exactly (old minus (before minus after)) plus after, object by object |
| `Server.Server.GroupKill` | internal/server/routes.go:709-761 | the state machine's step for the whole group; other pipelines stay the same objects |
| `Server.Server.Kill` | internal/server/routes.go:733-738 | the loop over the targets removes each from manager and router |
| `Server.Server.PaneSwap` | internal/server/routes.go:767-816 | the state machine's step on shared pane objects |
| `Server.Server.PaneTitle` | internal/server/routes.go:906-941 | the state machine's step |
| `Manager.Manager.CreateWindow` | internal/session/manager.go:89-104 | appends an empty window unless the name is empty or taken |
| `Manager.Manager.CloseWindow` | internal/session/manager.go:108-128 | splices the window out and clamps the active index; the last window stays |
| `Manager.Manager.RenameWindow` | internal/session/manager.go:131-151 | renames in place unless the new name is empty or taken |
| `Manager.Manager.FocusWindow` | internal/session/manager.go:154-166 | the active index becomes the first window of that name |
| `Manager.Manager.AddPane` | internal/session/manager.go:199-216 | the very pane object goes behind the window's panes, up to 64; every other window keeps its objects |
| `Manager.Manager.RemovePane` | internal/session/manager.go:219-233 | the first pane with the id goes, all other pane objects stay where they were |
| `Manager.Manager.FindPane` | internal/session/manager.go:236-249 | the first window and pane with the id, as the objects themselves |
| `Manager.Manager.FindWindow` | internal/session/manager.go:272-291 | the first window of the name |
| `Manager.Manager.SetTitle` | internal/server/routes.go:925-936 | writing through the shared pane changes the title of the first pane with the id |
| `Manager.Manager.SwapPanes` | internal/server/routes.go:784-812 | the in-place swap, within one window or across two, of the panes found by id |
| `Manager.SwapAcross` | internal/server/routes.go:800-812 | overwriting slots in two windows with each other's pane objects and exchanging geometry |
| `Manager.Manager.Snapshot` | internal/session/manager.go:252-269 | copies every window and pane field |
| `Manager.Manager.RestoreSnapshot` | internal/session/manager.go:297-323 | rebuilds the session from fresh objects, so no later edit reaches the saved copy |
| `Manager.Manager.AllPaneIDs` | internal/session/manager.go:326-338 | all pane ids, window by window |
| `Manager.Manager.GroupPanes` | internal/server/routes.go:720-731 | the ids of the group's panes, in order |
| `Router.Router.Register` | internal/router/router.go:65-78 | refuses a registered id and else adds a fresh empty pipeline and bookmark store, keeping both maps' domains equal |
| `Router.Router.Deregister` | internal/router/router.go:90-95 | removes the id from both maps |
| `Router.Router.NewPipeline` | internal/router/router.go:185-200 | a fresh pipeline without filters, with the sink of the router if it has one, its maximum of filters, and an empty scrollback of the effective capacity |
| `Router.Router.constructor` | internal/router/router.go:45-62 | an empty router with its defaults put in for zeros |
| `HubModel.RunKeepsGood` | internal/server/hub.go:36-121 | over every run: what a client consumed plus what is queued (markers aside) is a gap-free stretch of the broadcast history from its registration on, reaching the present while it is registered; queues never exceed 256, no registered client is closed, none is closed twice, and no send meets a channel the hub did not close |
| `HubModel.StepKeepsGood` | internal/server/hub.go:36-121 | the same for each single step |
| `HubModel.StepAppends` | internal/server/hub.go:74-96 | the one frame each step puts behind those a client was ever given, if any, and that only the client itself takes one, the oldest |
| `HubModel.RunAppends` | internal/server/ws.go:95-125 | over every run the frames a client was given stay the first ones, in order |
| `HubModel.MarkerStandsBehind` | internal/server/ws.go:64-70 | the reconnect marker of an open channel with room stands, whatever comes later, behind exactly the frames offered before it |
| `HubModel.NothingAfterRevocation` | internal/server/hub.go:74-121 | over every run, a connection of a revoked token receives nothing it had not been sent before, even if it registers later |
| `HubModel.ClosedIff` | internal/server/hub.go:74-121 | over every run a channel is closed at the end exactly when it was before or some step revoked its member's token, or broadcast while the member was revoked or slow |
| `HubModel.MarkerPanicsIff` | internal/server/ws.go:53-70 | whatever happens between registration and marker, the marker panics exactly when such a step closed the channel in between |
| `HubModel.MarkerFateIff` | internal/server/ws.go:53-70 | read off the events alone: the marker panics exactly when, while the connection was in the hub, its token was revoked, or a broadcast found it revoked before or 256 frames not yet drained |
| `HubModel.MarkerIsSafe` | internal/server/ws.go:53-70 | in particular it meets an open channel when the token is not revoked before it and at most 256 broadcasts come first |
| `HubModel.ClosedBeforeItsMarker` | internal/server/ws.go:53-70 | a registration, a revocation and then the marker: the marker panics |
| `Hub.Hub.Register` | internal/server/hub.go:59-63 | the client joins at the present end of the history |
| `Hub.Hub.Deregister` | internal/server/hub.go:66-70 | the client leaves without being closed |
| `Hub.Hub.Broadcast` | internal/server/hub.go:74-96 | the loops over targets and the slow clients' eviction are one broadcast of the model on every client at once |
| `Hub.Hub.OfferAll` | internal/server/hub.go:82-95 | the loop offers the frame to every member and leaves exactly those not dropped |
| `Hub.Hub.RevokeToken` | internal/server/hub.go:104-121 | members of the token are removed and closed once; the token is remembered, the empty one too |
| `Hub.Hub.SendMarker` | internal/server/ws.go:64-70 | the marker is queued behind what is there, or left out when the queue is full; on a closed channel the send panics and queues nothing |
| `Hub.Hub.Drain` | internal/server/ws.go:95-125 | frames are consumed from the front of the queue |
| `Hub.Hub.IsRevoked` | internal/server/hub.go:130-138 | true for remembered tokens other than the empty one |
| `Auth.Store.Create` | internal/auth/auth.go:76-105 | stores a token with the requested panes and windows, the hash, the time of creation and the expiry under the id derived from the hash; other tokens stay |
| `Auth.IssuedIsStored` | internal/auth/auth.go:76-105 | issuing stores exactly one token, with the scope, time and expiry it was issued with |
| `Auth.Store.Verify` | internal/auth/auth.go:109-130 | accepts exactly a plain text whose id is stored with the same hash and has not expired |
| `Auth.Store.Revoke` | internal/auth/auth.go:134-142 | removes the token and says whether there was one |
| `Auth.HasPaneAccess` | internal/auth/auth.go:40-52 | access iff the scope is empty or names the pane |
| `Auth.IssuedIsAcceptedUntilExpiry` | internal/auth/auth.go:76-130 | whatever else is issued and revoked, an issued plain text is accepted exactly until its expiry, as a token with the requested scope, which grants exactly the panes named, or all when none was |
| `Auth.RevokedIsNeverAccepted` | internal/auth/auth.go:109-142 | a revoked token whose id is not reissued is never accepted again |
| `Revocation.NoBroadcastAfterHubHalf` | internal/server/routes.go:671-679 | in any interleaving of connects and revocations nothing broadcast after the hub half reaches a connection of the token |
| `Revocation.OneBroadcastCleansForever` | internal/server/routes.go:166-183 | once both halves ran and verified connects have registered, one broadcast leaves no connection of the token in the hub, forever |
| `Revocation.GoneForever` | internal/server/hub.go:74-121 | a hub without connections of a settled token never gets one again |
| `Revocation.BothHalvesSettle` | internal/server/routes.go:671-679 | after any run with both halves of a revocation, in either order, an issued token is settled exactly when no verified connect of it is still to register |
| `Revocation.RevocationCleansUp` | internal/server/routes.go:671-679 | after such a run one broadcast leaves no connection of the token in the hub, whatever follows |
| `Relay.RelayLines` | internal/pipe/pipe.go:43-94 | the loop with its queue, over the framing reader, for any failure pattern and any moment of cancellation, ends in the state of the model after exactly the lines read, with 1000 as the default limit |
| `Relay.RelayLine` | internal/pipe/pipe.go:77-91 | one turn: flush up to the first failure, then the live line is sent, queued or dropped |
| `Relay.Conservation` | internal/pipe/pipe.go:77-91 | for every failure pattern acknowledged, queued and dropped lines together are the multiset of lines read |
| `Relay.QueueIsBounded` | internal/pipe/pipe.go:86-90 | the queue never exceeds the limit |
| `Relay.QueueIsFIFO` | internal/pipe/pipe.go:77-84 | lines leave the queue in the order they entered it |
| `Relay.DropsIff` | internal/pipe/pipe.go:77-91 | for a positive limit a line is dropped exactly when the queue is full and two sends in a row fail |
| `Relay.NewestIsDropped` | internal/pipe/pipe.go:86-90 | what is dropped then is the line just read, and the queue and all sent lines stay as they were |
| `Relay.SecondOfTwoIsDropped` | internal/pipe/pipe.go:86-90 | with room for one line and a dead server the first line stays and the second goes |
| `Relay.QueueIsInOrder` | internal/pipe/pipe.go:77-91 | the queue is an in-order subsequence of the lines read, whatever fails |
| `Relay.SentAndQueuedInOrder` | internal/pipe/pipe.go:77-91 | when no live send succeeds right after a failed flush, acknowledged then queued lines are an in-order subsequence of the input, overflow allowed |
| `Relay.ExactIff` | internal/pipe/pipe.go:64-94 | acknowledged then queued lines are exactly the lines read after every prefix if no such overtaking and no overflow happened, and for distinct lines only then |
| `Relay.LiveLineOvertakes` | internal/pipe/pipe.go:77-91 | a failed flush followed by a successful live send puts the later line first |
| `Framing.HybridReader.Next` | internal/pipe/hybrid.go:40-61 | one logical line is taken off the input, or the scanner's error is reported at its end |
| `Framing.HybridReader.Accumulate` | internal/pipe/hybrid.go:70-99 | everything up to the sentinel or the end is encoded, the sentinel skipped |
| `Framing.FramingRoundTrip` | internal/pipe/hybrid.go:40-99 | any list of lines and blocks, printed with sentinels and read back, gives one logical line per item in order |
| `Framing.UnclosedBlockIsRead` | internal/pipe/hybrid.go:70-99 | a block whose end sentinel never comes becomes one line as well, of everything behind its opening, and the items before it are read as ever |
| `Framing.EveryInputIsItems` | internal/pipe/hybrid.go:39-61 | every input is lines and closed blocks one after the other, with at most one unclosed block behind them |
| `Base64.RoundTrip` | internal/pipe/hybrid.go:70-99 | the encoding of any bytes decodes to them (section 4 of RFC 4648) |
| `Base64.EncodeIs` | internal/pipe/hybrid.go:83 | every three bytes become four letters of the same number, read in base 256 and base 64, with one letter of padding for each byte missing (section 4 of RFC 4648) |
| `Base64.DecodesIff` | internal/pipeline/pipeline.go:234-237 | a text is decoded exactly when, line breaks left out, it is whole groups of letters with at most two letters of padding at the end |
| `Base64.EncodeIsText` | internal/pipe/hybrid.go:70-99 | encoded text holds only alphabet and padding characters, so no line break |
| `EndToEnd.ImageIsShown` | internal/pipe/hybrid.go:70-83 | an image block's line is one line, and the pipeline's own decoder gives back its lines, each with a newline |
| `EndToEnd.SVGIsHandedOn` | internal/pipe/hybrid.go:86-99 | an SVG block's line reaches the control handler with a text that decodes to its lines |
| `EndToEnd.PrintedItemsComeOut` | internal/pipeline/pipeline.go:111-201 | lines and blocks printed, framed and run through a pipeline with any filters come out in order: what the filters make of lines and decoded images at the sinks, SVG texts at the handler, and the store is untouched |
| `Delivery.DeliveryIsRelay` | internal/server/routes.go:246-249 | whatever the pipeline accepts, the relay in front of it behaves as its model does for the same verdicts, so all that holds for any failure pattern holds |
| `Delivery.AcceptedArrive` | internal/pipe/pipe.go:64-94 | while the pipeline accepts every line, all lines are acknowledged in order and the pane's store and sinks are as if fed directly |
| `Delivery.ArriveIff` | internal/pipe/pipe.go:64-94 | every prefix of the lines has arrived in full exactly when the pipeline, fed the lines directly, rejects none |
| `Delivery.HopelessIff` | internal/pipeline/pipeline.go:205-223 | a line is rejected whatever is stored exactly when its payload does not parse, a key is bad or a value oversized, or some of its pairs, written to an empty store, are more than the store holds |
| `Delivery.HopelessHeadStaysForever` | internal/pipe/pipe.go:77-84 | with such a line at its head the queue never shrinks again and nothing queued is ever sent, while accepted live lines overtake it in order |
| `Delivery.HopelessBlocksTheQueue` | internal/pipe/pipe.go:77-91 | one such line behind lines that all arrived stays at the head of the queue for the rest of the run, and accepted lines overtake it in order |
| `Delivery.RetryRevertsAValue` | internal/pipeline/pipeline.go:211-220 | a value set by an accepted line is overwritten by the retry of an older, rejected one |
| `Control.Parse` | internal/control/control.go:79-105 | the sequence whose tag the line starts with, in whatever order the tags are tried |
| `Control.TagsPrefixFree` | internal/control/control.go:46-75 | no two tags start the same line |
| `Control.ParsePrint` | internal/control/control.go:79-105 | parsing tag plus payload gives that kind and payload |
| `Control.PrintParse` | internal/control/control.go:79-105 | a parsed line is its tag plus its payload; a line is not parsed iff no tag starts it |
| `Control.KVPairs` | internal/control/control.go:116-147 | the loop over entries gives the pairs or the first bad entry |
| `Control.KVRoundTrip` | internal/control/control.go:116-147 | pairs joined by `;` are recovered, for keys non-empty without `=`, `;` or leading space and values without `;` or trailing space |
| `Control.PairsIff` | internal/control/control.go:116-147 | of the entries, trimmed and the blank ones left out: the payload is accepted iff each has an equals sign behind a key; the pairs are those entries cut at their first one, and the error is the first entry without |
| `Control.OnlyPair` | internal/control/control.go:135-143 | an entry can be cut in only one way |
| `Control.PaddedEntries` | internal/control/control.go:126-133 | a padded entry and a separator too many are read as the one pair |
| `Text.TrimSpaceIs` | internal/control/control.go:127 | trimming takes white space characters from both ends and leaves none there |
| `Text.JoinSplit` | internal/control/control.go:123 | the pieces hold no separator, and joined again they are the text |
| `PipelineModel.AcceptedPairsRoundTrip` | internal/kvstore/kvstore.go:23-37 | keys the store accepts survive the separators and the trimming, so joined pairs with such keys are recovered whenever the values hold no `;` and end in no space |
| `Text.SplitJoin` | internal/control/control.go:116-147 | splitting what was joined gives the parts back |
| `PipelineModel.SuccessfulRun` | internal/pipeline/pipeline.go:111-203 | a run without error shows exactly the filtered content lines in order, hands on exactly the other sequences, and leaves the store as the fold of all key=value writes |
| `PipelineModel.FailedRun` | internal/pipeline/pipeline.go:111-223 | a failing run stops at one line: the state is that of the lines before it plus the pairs before the first rejected one, or none when the payload does not parse, and the error names why that pair is rejected |
| `PipelineModel.RouteOfTag` | internal/pipeline/pipeline.go:130-166 | what each of the seventeen tags does with its payload |
| `PipelineModel.FilteredIff` | internal/pipeline/pipeline.go:181-188 | a text comes out of the filters exactly when it is the last of stages that start with the line and each go through the next filter, and none does exactly when a filter drops the stage that reached it |
| `PipelineModel.ContentIff` | internal/pipeline/pipeline.go:169-201 | the same of a content line, which is decoded first |
| `PipelineModel.FiltersRun` | internal/pipeline/pipeline.go:181-188 | a filter that drops everything lets nothing through, and one that shouts makes every line shout |
| `PipelineModel.PairsApplied` | internal/pipeline/pipeline.go:211-220 | exactly the pairs before the first rejected one are written, each accepted |
| `PipelineModel.KVLineAtomicIff` | internal/pipeline/pipeline.go:211-220 | a rejected line leaves the store as it was iff the pairs before the rejected one repeat values already stored |
| `PipelineModel.KVLineIsNotAtomic` | internal/pipeline/pipeline.go:211-220 | a line of one good and one bad pair leaves the good one behind |
| `PipelineModel.VerbatimIsLiteralIff` | internal/pipeline/pipeline.go:135-182 | a verbatim payload is shown as it is iff it is not itself a decodable base64 line |
| `PipelineModel.VerbatimIsDecoded` | internal/pipeline/pipeline.go:135-182 | the payload b64:QQ== is shown as A |
| `PipelineModel.PlainIsLiteral` | internal/pipeline/pipeline.go:130-141 | a line no tag starts is shown as it is |
| `PipelineModel.EncodedLineIsDecoded` | internal/pipeline/pipeline.go:227-240 | a base64 line of an encoded text is shown decoded |
| `Pipeline.Pipeline.Run` | internal/pipeline/pipeline.go:111-127 | every sink, the scrollback, the handler and the store hold what the functional specification says, up to the first error or the cancellation: each sink its old lines and the shown ones, the scrollback the last of them, the handler the other sequences if there is one |
| `Pipeline.Pipeline.ProcessLine` | internal/pipeline/pipeline.go:130-166 | the same for one line |
| `Pipeline.Pipeline.DispatchContent` | internal/pipeline/pipeline.go:169-201 | the filtered line reaches scrollback and every sink, or none when a filter drops it |
| `Pipeline.Pipeline.ApplyKVSequence` | internal/pipeline/pipeline.go:205-223 | pairs are written up to the first rejected one and its error is returned |
| `Pipeline.Pipeline.AddFilter` | internal/pipeline/pipeline.go:87-99 | refuses exactly when a positive maximum is reached |
| `Pipeline.Pipeline.AddSink` | internal/pipeline/pipeline.go:70-75 | the sink goes behind the others, and a new one keeps the pipeline valid |
| `Scrollback.ScrollbackBuffer.constructor` | internal/session/scrollback.go:24-37 | empty, with the capacity clamped or defaulted |
| `Scrollback.ScrollbackBuffer.Append` | internal/session/scrollback.go:41-55 | at every head position and however often it wrapped, the contents become the last cap of the old ones plus the line |
| `Scrollback.ScrollbackBuffer.Lines` | internal/session/scrollback.go:58-73 | the contents in order across the wrap |
| `Scrollback.ScrollbackBuffer.Clear` | internal/session/scrollback.go:89-95 | empties the buffer |
| `Scrollback.BufferHoldsTheLastLines` | internal/session/scrollback.go:41-95 | after any sequence of appends and clears the buffer holds the last min(n, cap) lines since the last clear |
| `Scrollback.LastNIs` | internal/session/scrollback.go:41-55 | the last lines are as many as fit and nothing stood behind them |
| `KVStore.Store.Set` | internal/kvstore/kvstore.go:58-77 | writes value and byte count, or reports the limit and changes nothing |
| `KVStore.Store.Delete` | internal/kvstore/kvstore.go:90-98 | removes the key and its bytes |
| `KVStore.Store.Keys` | internal/kvstore/kvstore.go:101-116 | exactly the keys with the prefix, in ascending order |
| `KVStore.AscendingUnique` | internal/kvstore/sort.go:5-9 | there is only one ascending list of a set of keys |
| `KVStore.AccountingHolds` | internal/kvstore/kvstore.go:58-98 | over every run of writes and deletes the byte count is the sum of the stored lengths, and no value nor the total exceeds its limit |
| `KVStore.SetAnswers` | internal/kvstore/kvstore.go:58-77 | a write is accepted exactly when the value is not too long and the bytes stored with it do not exceed the limit |
| `KVStore.AfterIs` | internal/kvstore/kvstore.go:58-98 | an accepted write is read back, a deleted key is gone, a refused write changes nothing, and no other key is touched |
| `KVStore.LastCallDecides` | internal/kvstore/kvstore.go:58-98 | over every run, what is found under a key is what the last call about it left |
| `KVStore.AbsentUntilSet` | internal/kvstore/kvstore.go:90-98 | over every run, an absent key stays absent until it is set |
| `RateLimiter.Limiter.Allow` | internal/server/middleware.go:112-130 | the in-place bucket update takes the model's decision and leaves every other address alone |
| `RateLimiter.AtMost` | internal/server/middleware.go:90-130 | with a monotone clock at most 10 * ceil(T / W) + 9 requests of one address are let through in any closed interval of length T > 0 |
| `RateLimiter.AMinute` | internal/server/middleware.go:90-130 | so at most 19 in any minute |
| `RateLimiter.NineteenInAMinute` | internal/server/middleware.go:90-130 | a run that lets 19 through in a minute, so the bound is tight |
| `RateLimiter.MinuteIs` | internal/server/middleware.go:112-130 | what any minute lets through: of the requests up to the end of the window open when it begins as many as that window has left, and at most ten of those behind it |
| `RateLimiter.MoreThanTenIff` | internal/server/middleware.go:90-130 | more than ten in a minute exactly when a window opened before it is still there and these two numbers add up to more than ten |
| `RateLimiter.RefusedMeans` | internal/server/middleware.go:119-127 | a request is refused only when exactly ten of its address were let through since the window opened, within the minute before |
| `RateLimiter.OthersNeverMatter` | internal/server/middleware.go:112-130 | the outcome is that of the run with all other addresses left out |
| `Escape.EscapeIsSimultaneous` | internal/format/format.go:85-93 | five replacements one after the other are one substitution of each character |
| `Escape.EscapedIsSafe` | internal/format/format.go:85-93 | the result holds none of the four characters that open tags or end attributes |
| `Escape.EscapeRoundTrip` | internal/format/format.go:85-93 | reading the five entities back returns every string |
| `Escape.EscapedYields` | internal/format/format.go:85-93 | wherever it stands in HTML, escaped text comes apart into its own characters and no tag |
| `Escape.EscapedShowsItself` | internal/format/format.go:85-93 | wherever it stands in HTML, escaped text shows as the original |
| `HighlightJson.Highlight` | internal/format/json.go:50-133 | the scanner ends and stays in bounds, except that it slices past the end exactly when the text breaks off inside a literal right after a backslash; else it renders tokens that are the source in order, each right for what follows it |
| `HighlightJson.QuoteAndBackslash` | internal/format/json.go:60-72 | the text of a quote and a backslash is such a source |
| `HighlightJson.ScanString` | internal/format/json.go:60-72 | the end of a literal, escapes included |
| `HighlightJson.Partition` | internal/format/json.go:50-133 | the token texts in order are the source |
| `HighlightJson.ColouringIsUnique` | internal/format/json.go:50-133 | a source has only one such tokenisation |
| `HighlightJson.StringsAreColouredIff` | internal/format/json.go:60-86 | exactly the characters inside string literals, by an independent automaton, get a key or string colour |
| `HighlightJson.ColoursTheSource` | internal/format/json.go:50-133 | for a source with no `<` or `&` outside literals, a browser takes the HTML apart into one element per token, of the class of its style, around the token's characters |
| `HighlightJson.ShowsTheSource` | internal/format/json.go:50-133 | for a source with no `<` or `&` outside literals, what the browser shows of the HTML is the source |
| `Markdown.RenderMarkdown` | internal/format/markdown.go:24-146 | never returns iff some line outside fences starts with `#` without being a heading; else renders blocks that are all lines in order, each right for what follows it |
| `Markdown.TagIsStuck` | internal/format/markdown.go:54-71 | the line #tag is such a line |
| `Markdown.RenderBlock` | internal/format/markdown.go:29-143 | one turn of the outer loop consumes a maximal block, or nothing exactly on such a line |
| `Markdown.RenderFence` | internal/format/markdown.go:33-51 | a fence runs to its closing line or the end; past an unclosed one the index is one behind the text |
| `Markdown.BlocksPartition` | internal/format/markdown.go:29-143 | every line is in exactly one block, in order |
| `Markdown.BlocksAreUnique` | internal/format/markdown.go:29-143 | a text has only one such reading |
| `Markdown.ScannedFences` | internal/format/markdown.go:33-71 | blocks end outside fences, by an independent toggling automaton, and never hold a line the loop can not pass |
| `MarkdownInline.InlineMarkdown` | internal/format/markdown.go:149-224 | the scanner always advances, stays in bounds and renders the spans of the line |
| `MarkdownInline.SpansIff` | internal/format/markdown.go:154-221 | a list of spans is the line's reading iff its spans are the line in order, marks paired with the first one that closes them and alone only when nothing does |
| `MarkdownInline.InlinePartition` | internal/format/markdown.go:154-221 | the spans are the line, with nothing left over |
| `MarkdownInline.RenderedYields` | internal/format/markdown.go:149-224 | wherever it stands, a rendered line comes apart into one element per span, named for its kind, around the characters of its text |
| `MarkdownInline.LinkLeadsToItsAddress` | internal/format/markdown.go:203-207 | whatever the address holds, the attribute of the link is read as it |
| `MarkdownInline.RenderedShows` | internal/format/markdown.go:149-224 | wherever it stands, a rendered line shows the texts of its spans, every other byte widened to the character of its number |
| `MarkdownInline.InlineShowsIff` | internal/format/markdown.go:149-224 | the browser shows the text of every span and every unpaired character, marks and addresses left out, exactly when all bytes outside code, emphasis and links are ASCII |
| `MarkdownInline.AccentIsGarbled` | internal/format/markdown.go:217-219 | the two bytes of U+00E9 come out as four |
| `MarkdownShown.BlockYields` | internal/format/markdown.go:29-143 | wherever it stands, a rendered block comes apart into the elements of its kind, a heading of its level, one item per line, around what its lines come apart into |
| `MarkdownShown.RenderedTextYields` | internal/format/markdown.go:24-146 | a whole rendered text comes apart into the elements of its blocks in order and nothing else |
| `MarkdownShown.LanguageReadsBack` | internal/format/markdown.go:38-42 | whatever the language of a fence is called, its class is read as that name behind the prefix |
| `MarkdownShown.BlockShows` | internal/format/markdown.go:29-143 | wherever it stands, a block shows its text: code lines as they are, other lines as their spans without markers |
| `MarkdownShown.RenderedTextShows` | internal/format/markdown.go:24-146 | of a whole rendered text the browser shows the texts of its blocks in order |
| `MarkdownShown.NumberedIsWholeIff` | internal/format/markdown.go:109-116 | a numbered line is rendered whole exactly when a space follows its period, and not at all exactly when it holds no period and space |
| `MarkdownShown.KeepsItsTextIff` | internal/format/markdown.go:106-120 | a block loses nothing but markers exactly when it is no numbered list or a space follows the period of every line |
| `MarkdownShown.NumberedLineIsLost` | internal/format/markdown.go:106-120 | a second line 2.b is consumed and not shown |

## Left out

- HTTP, WebSocket and Unix-socket I/O, JSON bytes, SQLite and YAML: requests are method arguments and snapshots are deep copies of the session, so JSON replacing invalid UTF-8 is not modelled.
- The frontend, the CLI, terminals, the mirror, cycling, export and discovery: plumbing or user interface.
- Zoom, resize, format and the other actions of a group: they write one pane field each, as the title handler does.
- Manager.ApplyLayout from layout files: sessions come from handlers and saved layouts.
- The payload of the layout update broadcast after each handler.
- The other handlers' halves: layout apply and group kill also lock manager and router in turn, and window close drops panes
  without their pipelines; only splits and pane closes are interleaved.
- Interleaving inside hub Broadcast: the lock is released before the sends, so overlapping broadcasts can meet a closed channel; each hub method is one step here.
- Effects of the control handler: it is installed before any pipeline exists, so it is an optional recorder.
- Subprocess filters and formatters: a filter is a pure function of a line. Timestamps are off.
- The scanner's 64 KB limit and its stripping of carriage returns: runs start from split lines and a final scanner error.
- SHA-256 and randomness: the hash is a function with long enough values, plain texts and clocks are arguments.
- The algorithm of sort.Slice: an insertion sort stands in, and the ascending list is unique.
- One sink added twice: it is appended, but the runs of a pipeline are stated for distinct sinks.
- Routing to an unregistered id with allow-unassigned, which makes a pipeline without a pane.
- Bookmark contents: only the two maps' domains and the fresh stores are modelled.
- Headings, lists and quotes call the function `Markdown.InlineHtml`, which the scanner `MarkdownInline.InlineMarkdown` is proved equal to.
- Revocation.OneBroadcastCleansForever: token ids are not reissued, as random token bytes are taken to be fresh.
