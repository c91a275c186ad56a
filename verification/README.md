# Vorn's cursors, relay, graphs and round trips

A Dafny model of the parts of Vorn whose behaviour is hard to see from one function, with proofs of what they promise.
`dafny verify dfyconfig.toml` checks all of it.

What is modelled:

- **Poll cursors** (`Dedupe`, `DedupePages`, `DedupeCap`, `DedupeRuns`, `Drain`, `TimestampDrain`, `CrowdedInstant`,
  `Starvation`, `Ending`, `FeedRuns`). What counts as new depends on a timestamp boundary, the ids remembered at it,
  items without a timestamp pinned to it, a page limit and a cap of 500 ids. The imperative poll is proved against a
  specification, the specification page by page (`DedupeCap` for what the cap does), and then over whole runs against a
  source that changes in between. `Drain` follows pages to the end for both strategies, `TimestampDrain` says when that
  returns the backlog of a fixed source, `Starvation` what happens when one instant holds more than the cursor can tell
  apart, and `Ending` exactly when polling comes to an end. `FeedRuns` runs `lastItem` against a feed that grows.
- **The MCP relay** (`Relay`, `RelayClosure`, `RelayRuns`, `RelaySessions`, `RelayBackoff`). Each `deliver` and the one
  reconnect in flight advance in steps between awaits; vornd, the network and the clock are the events. A delivery
  carries all it posted, how often vornd's tools took it and what the agent heard; the state also records every session
  id issued, every reconnect started and every POST reconnects made. `RelayClosure` holds the closure's variables as a
  class whose methods are the pieces of code between awaits, each proved to be one step, and drives them through any
  run; the lemmas range over every run of steps.
- **Workflow graphs** (`Graph`, `Loops`, `LoopBodies`, `LoopQuotient`). The breadth-first closures, loop ownership,
  collapsing bodies and Kahn's algorithm, each against a definition by walks.
- **Small algorithms with deep specifications.** Edit distance (`EditDistance`), the nested-quantifier scanner against
  regex syntax trees (`NestedQuantifier`), the WIT type printer, tokenizer and parser (`WitTypes`, `WitRoundTrip`), dotted
  paths and the five response ops (`PostReceive`, `PostReceiveOps`), the chunked line reader (`Lines`), following pages
  (`Pages`), the coalescing waker (`Waker`), the searches for an unused id (`Ids`), and export and import
  (`PortablePaths`, `Portability`, `PortableRoundTrip`). `Wrappers`, `Counting` and `Decimals` are shared.

Where the code works step by step the model is a method or a class with its loops, proved against a function; where it is
expressions the model is functions and lemmas. The relay and the waker interleave, so their runs are sequences of events
and the lemmas about them hold for every legal one.

## Hypotheses

- Dedupe: item ids are distinct within one fetch, limits are at least 1, a changed item is stamped later than before and
  no earlier than the cursor's instant, and `fetch` leaves out only stamped items older than the boundary it was given.
  Drains, starvation and ending are about a source that does not change meanwhile.
- A `lastItem` source lists from the newest at least through the remembered item, or everything. One that stops short
  of it, as heeding the `limit` it is handed would have it do, skips items for good (`FeedRuns.ShortListingSkips`).
- Relay: a POST that was never connected, or that vornd answers with 401, 404 or 503, has not reached its tools. The
  proof that ids go home also assumes the MCP lifecycle: an agent sends nothing beside an initialize not yet answered.
- Export and import: node ids are unique.
- Loops: node ids are unique and every loop passes `loopStructureError`; for the quotient, ids without `>` are enough.

## Where a promise has a condition

Each of these is proved as an exact condition, with a case that fails where one is needed.

- A delivered item is redelivered exactly when a first poll delivered it without a stamp beside one stamped after poll
  time, or 500 ids or more go before it in the next cursor. What a poll left behind is new to the next one, always.
- But new is not delivered. A drain of a fixed source returns the backlog exactly when no page before the last leaves
  the cursor more than 500 ids to hold on to. Past that, polls repeat items and still come to an end, unless they reach
  an instant shared by 500 items and a page or more with others to come: there the boundary stays for good, and the rest
  is never delivered. Whether they do follows from the catalog, the cursor and the limit: with `g` ids remembered, a
  page ends at place `g + limit` of what the source holds from the boundary on, and the next cursor remembers
  `g + limit` ids there, or those of the new instant and all without a stamp, 500 at most; polling ends exactly if that
  runs out before 500 ids leave the boundary where it is. 601 rows stamped alike and a limit of 100 are enough to
  starve. The comment at `packages/connector-sdk/src/dedupe.ts:20-27` expects redelivery and no more.
- While the remembered item stays listed `lastItem` delivers each item once; it starts again on the whole feed exactly
  when that item is gone.
- A reconnect's wait ends, whatever happens, exactly when its first delay reaches the deadline or neither delay is zero.
- `collapseLoopBodies` keeps every edge exactly when equal keys mean equal edges; an id holding `->` can break that. It
  adds no path exactly when each loop leads wherever its body leads, and an accepted loop need not.
- `loopStructureError` calls a body that lists a step twice cyclic, whether or not anything runs in a circle.
- A WIT type comes back from its text exactly when no name is a keyword and, inside brackets, none ends in a dash.
- Every put at a path leaves another path unchanged exactly when the two do not meet. `01` and `1` name one list item, so
  paths of which neither starts the other may meet; `1.a` and `01.b` do not.
- A path whose tail spells no placeholder comes to the same place in the importing project, and home in its own; into a
  project whose path and name hold no brace no other path does. Exporting from the importing project restores the
  placeholders exactly when, besides, that project's path is more than separators.
- An import leaves a script's key unset exactly when no plain requirement of the step has an answer. The comment at
  `packages/shared/src/workflow-portability.ts:285-287` promises it of every file; it holds of exported ones, and a file
  edited by hand to leave `key` out of the requirement has the key bound.
- An initialize in flight while a reconnect finishes can leave the relay at one vornd with another's session; a step does
  so exactly when that answer comes from a vornd the relay has left and its id was never the present one's.

The comment on `collapseLoopBodies` says a branch label on an edge out of a body is dropped; for a body that
`loopStructureError` accepts there is no label to drop.

## Model

| member | source | states |
|---|---|---|
| DedupeRuns.NewExactlyWhenNeverDelivered | packages/connector-sdk/src/dedupe.ts:99-149 | Over every run of polls with any limits against a source that changes between them: an item never delivered in its current version is new to the next poll, cap or no cap; and while every page was clean, an item is new only if its version was never delivered. |
| DedupeRuns.NewAfterAnyPoll | packages/connector-sdk/src/dedupe.ts:114-147 | At every poll of every run, clean pages before it or not: a listed item is new to the next poll if and only if it was new and stayed behind, or is passed by or crowded out. |
| DedupeRuns.CleanIffNothingComesAgain | packages/connector-sdk/src/dedupe.ts:99-149 | After clean pages, one more page is clean if and only if the next poll that takes all there is of an unchanged source delivers no version a second time. |
| DedupeRuns.SameAgain | packages/connector-sdk/src/dedupe.ts:99-149 | There always is such a next poll: the source may list the same again. |
| DedupeRuns.UnlimitedCatchesUp | packages/connector-sdk/src/dedupe.ts:79-97 | After any run, one poll without a limit leaves nothing in scope undelivered: the present version of every item the source holds has been delivered. |
| DedupeRuns.NoVersionTwice | packages/connector-sdk/src/dedupe.ts:99-149 | While all pages but the last were clean, no version is delivered twice in the whole run. |
| DedupeRuns.PollKeeps | packages/connector-sdk/src/dedupe.ts:99-149 | A poll keeps the run invariant: the cursor remembers only known ids, whatever was never delivered is still new, whatever was delivered is not. |
| DedupeRuns.ChangeKeeps | packages/connector-sdk/src/dedupe.ts:99-149 | So does the source changing between polls, as long as what changed is stamped later than before and no earlier than the cursor. |
| DedupeRuns.PlayKeeps | packages/connector-sdk/src/dedupe.ts:182-219 | The invariant holds after every legal run. |
| DedupePages.LeftBehindStaysNew | packages/connector-sdk/src/dedupe.ts:116-149 | A new item the limit left behind is new under the cursor the page earns, even when the cap cut ids. |
| DedupeCap.DeliveredIsSeen | packages/connector-sdk/src/dedupe.ts:116-147 | A delivered item is new to the next poll if and only if it was passed by (a first poll delivered it without a stamp beside one stamped after poll time) or crowded out (500 ids or more, counted on the listing, the ids remembered and the page, go before it in the next cursor). |
| DedupePages.PassedPollTimeComesTwice | packages/connector-sdk/src/dedupe.ts:116-126 | The first of those does happen: any unstamped item delivered by a first poll beside one stamped later is new again to the cursor it answers. |
| DedupeCap.SeenStaysSeen | packages/connector-sdk/src/dedupe.ts:136-147 | An item that was not new is new after the page if and only if it was crowded out; pinned items re-pin to wherever the boundary lands. |
| DedupeCap.RememberedBehind | packages/connector-sdk/src/dedupe.ts:139-147 | What stands behind an id in the next cursor is exactly what the listing, the ids remembered and the page say outlasts it. |
| DedupeCap.RememberedNoDup | packages/connector-sdk/src/dedupe.ts:139-147 | The cursor never remembers an id twice. |
| DedupePages.RememberedIds | packages/connector-sdk/src/dedupe.ts:130-147 | Exactly which ids the next cursor remembers, before the cap, for both branches of the carried list. |
| DedupePages.DeliveredIsRemembered | packages/connector-sdk/src/dedupe.ts:131-147 | Of what a page delivered, exactly the items at its last instant and the pinned ones are remembered. |
| DedupePages.ChronologicalIsFresh | packages/connector-sdk/src/dedupe.ts:114-128 | What is delivered from is ordered by instant and id, holds each id once, and is exactly the new items of the listing. |
| Dedupe.TimestampPoll | packages/connector-sdk/src/dedupe.ts:99-149 | The imperative poll (walk, sort, backward walk, carried ids) answers the specified outcome, errors included. |
| Dedupe.Sift | packages/connector-sdk/src/dedupe.ts:114-127 | The walk stops at an unreadable timestamp; otherwise it yields the new items and the pinned ids already delivered. |
| Dedupe.CollectNewest | packages/connector-sdk/src/dedupe.ts:131-135 | The backward loop yields the ids sharing the newest instant, newest first. |
| Dedupe.SortSorts | packages/connector-sdk/src/dedupe.ts:128 | The sort is ordered and a permutation. |
| Dedupe.OneOrder | packages/connector-sdk/src/dedupe.ts:128 | With distinct ids there is one such order, whatever order the source listed in. |
| TimestampDrain.DrainIsBacklogIffFits | packages/connector-sdk/src/runtime.ts:122-142 | From any cursor and a fixed source, a drain returns exactly the new items, once each and in order, if and only if what the cursor has to hold on to is at most 500 ids after each page but the last and 1000 pages are enough. |
| TimestampDrain.TimestampDrainIsBacklog | packages/connector-sdk/src/runtime.ts:122-142 | Then it takes as many pages as the limit makes of the backlog, or ends in the page-bound error, for any listing that holds everything at or after the boundary and any clock. |
| TimestampDrain.DrainReturnsAtLeast | packages/connector-sdk/src/runtime.ts:122-142 | Where it does not fit, a drain that still succeeds returns more items than the backlog has. |
| TimestampDrain.DrainHasAll | packages/connector-sdk/src/runtime.ts:122-142 | Any drain that succeeds has delivered the whole backlog, whatever the cap cut. |
| TimestampDrain.FewFit | packages/connector-sdk/src/dedupe.ts:28 | It fits if at most 500 ids share any instant, those without a stamp counted with each. |
| TimestampDrain.PageHolds | packages/connector-sdk/src/dedupe.ts:139-147 | What a page leaves the cursor to hold on to is settled by the backlog alone, not by the listing or its order. |
| Ending.EndsIffMarked | packages/connector-sdk/src/dedupe.ts:114-147 | From any cursor and any fixed source, polling page after page with no bound comes to an end if and only if a recursion on the catalog, the cursor and the limit says so: it counts the ids the cursor remembers of its boundary and looks up where the next page ends. |
| Ending.EndsIffCounted | packages/connector-sdk/src/dedupe.ts:114-147 | For a cursor whose ids are distinct and share its boundary, how many they are is enough. |
| Ending.MarksStay | packages/connector-sdk/src/dedupe.ts:139-147 | A page that leaves the boundary where it is puts its ids behind those there were, cut to the last 500. |
| Ending.MarksMove | packages/connector-sdk/src/dedupe.ts:139-147 | A page that moves it leaves the ids delivered at the new instant and all items without a stamp, 500 at most. |
| Ending.BacklogShift | packages/connector-sdk/src/dedupe.ts:114-128 | The backlog is what the catalog holds from the boundary on, shifted by the number of ids known there. |
| Ending.StampedMarks | packages/connector-sdk/src/dedupe.ts:130-147 | Where everything is stamped the recursion comes to this: no instant from the boundary on is shared by 500 and a page with more to come. |
| Starvation.StampedEndsIff | packages/connector-sdk/src/dedupe.ts:130-147 | That special case, for a cursor of at most 500 ids: polling a source that stamps everything ends if and only if no instant from the cursor on is crowded. |
| Starvation.EndsIffNoCrowd | packages/connector-sdk/src/dedupe.ts:130-147 | Told by the polls themselves: they come to an end if and only if no number of them reaches a crowded instant. |
| Starvation.EndHasAll | packages/connector-sdk/src/dedupe.ts:130-147 | When it ends, the whole backlog was delivered. |
| Starvation.EndsWhenFewShare | packages/connector-sdk/src/dedupe.ts:130-147 | It ends if fewer than 500 and a page share any instant. |
| Starvation.CrowdIsNeverLeft | packages/connector-sdk/src/dedupe.ts:130-147 | At a crowded instant every poll asks for another, the boundary never moves, and only the first 500 and a page are ever delivered, again and again. |
| Starvation.BeyondIsNeverDelivered | packages/connector-sdk/src/dedupe.ts:130-147 | What comes after those is never delivered by any number of polls. |
| Starvation.UncrowdedIsLeft | packages/connector-sdk/src/dedupe.ts:130-147 | An instant not crowded is left, or the polls end there, within one poll more than 500 ids make pages. |
| Starvation.OneInstantDrainsIff | packages/connector-sdk/src/runtime.ts:122-142 | Items that all share an instant are drained if they are at most 500 and a page; if they are more, the drain runs to its page bound and fails. |
| Starvation.LastOf601NeverComes | packages/connector-sdk/src/dedupe.ts:114-147 | 601 rows stamped alike, a hundred to a page: seven pages of backlog, yet the last row is never delivered and the drain fails. |
| CrowdedInstant.CrowdsIffShared | packages/connector-sdk/src/dedupe.ts:28 | An instant is crowded exactly when as many ids share it and more is held from there on. |
| CrowdedInstant.FullStayIsCrowded | packages/connector-sdk/src/dedupe.ts:139-147 | A boundary that a cursor full of its own ids does not move is crowded. |
| Drain.LastItemDrainIsFeed | packages/connector-sdk/src/runtime.ts:122-142 | The same for `lastItem`: everything above the remembered item, oldest first; the whole feed when it is no longer listed. |
| Drain.FirstDrainIsOnePage | packages/connector-sdk/src/runtime.ts:122-142 | A drain without a cursor stops after one page. |
| Drain.DrainTakesAll | packages/connector-sdk/src/runtime.ts:122-142 | For any trigger whose pages take the front of what the cursor leaves and move the cursor on: the drain returns all of it in order, in exactly the pages it takes. |
| Drain.PagesForRoundsUp | packages/connector-sdk/src/runtime.ts:122-142 | The number of pages is the backlog over the limit, rounded up; an empty backlog takes one. |
| TimestampDrain.BacklogIsListing | packages/connector-sdk/src/dedupe.ts:114-128 | What a poll finds depends neither on which listing the source answers with nor on the clock. |
| TimestampDrain.PageLeavesRest | packages/connector-sdk/src/dedupe.ts:79-97 | A page leaves the next poll at least the rest of the backlog, and exactly that if and only if what the cursor has to hold on to fits the cap; otherwise more. |
| TimestampDrain.CursorMoves | packages/connector-sdk/src/dedupe.ts:130-147 | The cursor a page earns is never the one it came from. |
| FeedRuns.EachOnce | packages/connector-sdk/src/dedupe.ts:151-171 | Over every run of `lastItem` polls with any limits against a feed that grows at the top and drops items, while the remembered item stays listed: nothing is delivered twice, what is delivered comes oldest first, and what is listed was delivered, or passed at the start, exactly if it stands at the remembered item or below. |
| FeedRuns.AgainIffGone | packages/connector-sdk/src/dedupe.ts:163-164 | After such a run a poll delivers something passed if and only if the remembered item is gone and something passed is still listed; it then starts on the whole feed. |
| FeedRuns.ShortListingSkips | packages/connector-sdk/src/dedupe.ts:157-170 | A listing from the top skips items for good if and only if it holds something and stops short of what stands above the remembered item. |
| FeedRuns.TickKeeps | packages/connector-sdk/src/dedupe.ts:151-171 | A poll that finds the remembered item keeps the run invariant. |
| Drain.LastItemPageOutcome | packages/connector-sdk/src/dedupe.ts:151-171 | One `lastItem` page: the oldest items above the remembered one, and the cursor they earn. |
| Drain.DrainPoll | packages/connector-sdk/src/runtime.ts:122-142 | The loop returns what following the cursors one page at a time comes to, each error included. |
| TimestampDrain.TimestampRunPoll | packages/connector-sdk/src/runtime.ts:75-115 | On well-formed listings `runPoll` adds nothing to and rejects nothing of what the poll answers. |
| Drain.NormalizeItems | packages/connector-sdk/src/normalize.ts:94-104 | The first item without its fields or with an id already on the page is the error reported. |
| Drain.PageError | packages/connector-sdk/src/normalize.ts:60-66 | No error exactly when every item is complete and no id repeats. |
| RelaySessions.TakenOnceAtMost | packages/mcp/src/relay.ts:294-315 | In every interleaving of deliveries, reconnects and broken answers a delivery POSTs its message at most four times, always unchanged; reconnects POST it at most once per attempt, and never unless it belongs to the handshake; and a `tools/call` is taken by vornd at most once. |
| RelaySessions.HeardOneWay | packages/mcp/src/relay.ts:282-334 | The agent hears the answers of one exchange, whole once the delivery is over, or one JSON-RPC error with the request id; never both, and no error for what is no request. |
| RelaySessions.OneReconnectPerEpoch | packages/mcp/src/relay.ts:227-237 | Reconnects started equal the epoch plus one if one is in flight, the k-th in epoch k, and whoever started the one in flight waits for it. |
| RelaySessions.InstalledTogether | packages/mcp/src/relay.ts:183-214 | Where vornd is and the session there change only when a reconnect installs both, or when an initialize of the agent opens a session, which leaves vornd where it is. At an install the attempt has POSTed to that vornd the very initialize recorded when it was located, without a session, and then the note recorded when that was answered, if any, with the session the answer opened, which is the one installed; nothing exactly if no initialize was recorded. |
| RelaySessions.IdsAreIssued | packages/mcp/src/relay.ts:172-181 | Every session id held or sent was handed out in answer to an initialize. |
| RelaySessions.IdsGoHome | packages/mcp/src/relay.ts:240-292 | If the agent waits for an initialize to be answered, every session id goes only to the vornd that issued it. |
| RelaySessions.PartsIffStrays | packages/mcp/src/relay.ts:274-287 | A step parts session and upstream exactly when it accepts an initialize answered by a vornd the relay has left, with an id the present one never issued. |
| RelaySessions.AnInitializeCanStray | packages/mcp/src/relay.ts:240-292 | Without that hypothesis it can happen: a run that ends at one vornd with a session only another issued. |
| RelaySessions.NothingIsStuck | packages/mcp/src/relay.ts:294-315 | In every reachable state a delivery that is not over can go on, or waits for a reconnect that can. |
| RelayRuns.DeliveryKeeps | packages/mcp/src/relay.ts:240-315 | Every step of a delivery keeps what it posted, what the tools took and what the agent heard in agreement. |
| RelayRuns.RepairKeeps | packages/mcp/src/relay.ts:205-237 | Every step keeps the reconnect count, its epochs and `lastReconnect` in agreement. |
| RelayRuns.WaitsKeep | packages/mcp/src/relay.ts:227-237 | No delivery waits for a reconnect that was never started. |
| RelayRuns.MemoryKeeps | packages/mcp/src/relay.ts:299-304 | What is recorded as the handshake is an initialize and a note that were answered. |
| RelayRuns.TrailKeeps | packages/mcp/src/relay.ts:183-203 | What the attempt in flight has posted is exactly the handshake it read, so far, in order, to one vornd. |
| RelayRuns.ReadKeeps | packages/mcp/src/relay.ts:186-198 | What an attempt read is a handshake that was answered. |
| RelayRuns.ReplayKeeps | packages/mcp/src/relay.ts:183-203 | Over all attempts each posts the initialize once at most and the note once at most, and nothing else. |
| RelaySessions.SessionsKeep | packages/mcp/src/relay.ts:172-203 | Every step keeps all session ids issued, and issued by their own vornd unless an initialize strays. |
| RelaySessions.NothingInstalls | packages/mcp/src/relay.ts:227-237 | While an initialize is the one message in flight no reconnect can install anything. |
| RelayRuns.EachActAdvances | packages/mcp/src/relay.ts:294-315 | Whatever happens to a delivery brings it nearer its end: with four exchanges at most, none goes on for ever. |
| RelayClosure.Closure.Run | packages/mcp/src/relay.ts:154-347 | Driven through any legal run of events, the closure ends in the state the run of the state machine ends in. |
| RelayClosure.Closure.Take | packages/mcp/src/relay.ts:154-347 | Each event sets off the piece of code whose effect is one step. |
| RelayClosure.Closure.OnMessage | packages/mcp/src/relay.ts:323-324 | A message from the agent starts its delivery at the loop head: one step of the state machine. |
| RelayClosure.Closure.LoopHead | packages/mcp/src/relay.ts:297-299 | A reconnect in flight is waited for; else the exchange begins with the epoch seen. |
| RelayClosure.Closure.SendPost | packages/mcp/src/relay.ts:241-247 | One POST to the vornd held, with the session held unless it opens a new one. |
| RelayClosure.Closure.OnReply | packages/mcp/src/relay.ts:248-261 | What the status line settles: not connected, broken, turned away by 404 with a session, 503, or 404 and 401 once vornd was reached. |
| RelayClosure.Closure.OnBody | packages/mcp/src/relay.ts:262-281 | A broken or refused body fails; an accepted one marks vornd reached, opens the session of an initialize, and passes answers on or fails as not JSON-RPC. |
| RelayClosure.Closure.PassOn | packages/mcp/src/relay.ts:282-290 | One answer notes its protocol and goes to the agent, or the exchange is over. |
| RelayClosure.Closure.OnSuccess | packages/mcp/src/relay.ts:300-304 | An answered initialize or note is recorded for replay. |
| RelayClosure.Closure.OnFailure | packages/mcp/src/relay.ts:305-312 | Which failures end the delivery, in the order they are asked about, and which bring on a reconnect. |
| RelayClosure.Closure.Reconnect | packages/mcp/src/relay.ts:227-237 | The last outcome if a reconnect finished since, the one in flight, or a new one, numbered by its epoch. |
| RelayClosure.Closure.Resume | packages/mcp/src/relay.ts:296-314 | After a reconnect the exchange is made, made again with one resend fewer left, or given up. |
| RelayClosure.Closure.OnEnd | packages/mcp/src/relay.ts:323-333 | A failed request is answered with an error carrying its id. |
| RelayClosure.Closure.OnLocated | packages/mcp/src/relay.ts:185-188 | Nothing found throws; without a recorded initialize the session is empty; else it is replayed without a session. |
| RelayClosure.Closure.OnReplayed | packages/mcp/src/relay.ts:189-198 | The session opened, and the recorded note, if any, posted with it. |
| RelayClosure.Closure.OnOpened | packages/mcp/src/relay.ts:211-213 | The vornd found and its session are installed in one piece. |
| RelayClosure.Closure.OnThrown | packages/mcp/src/relay.ts:216-221 | A failed attempt gives up past the deadline or the close, and else sleeps. |
| RelayClosure.Closure.OnSettled | packages/mcp/src/relay.ts:230-235 | The epoch counts up, the outcome is kept, and no reconnect is in flight. |
| RelayClosure.Closure.EndTheSession | packages/mcp/src/relay.ts:337-346 | A held session is ended where it is held. |
| RelayBackoff.WaitForVornd | packages/mcp/src/relay.ts:205-225 | Whenever some attempt is the last, the loop ends there: at the first that works or that fails past the deadline or the close; each sleep is the doubled, capped delay cut at the deadline; the sleeps total at most `giveUpAfterMs`. |
| RelayBackoff.AlwaysEndsIff | packages/mcp/src/relay.ts:205-225 | Some attempt is the last, whatever happens, if and only if the first delay reaches the deadline or neither delay is zero. |
| RelayBackoff.SleptWithinDeadline | packages/mcp/src/relay.ts:205-225 | However the attempts go, what has been slept never exceeds `giveUpAfterMs`. |
| RelayBackoff.SixteenSleepsAtMost | packages/mcp/src/relay.ts:74 | With the standing backoff one reconnect sleeps at most 16 times. |
| Graph.NodesBetween | packages/shared/src/workflow-graph.ts:107-131 | Exactly the steps on some walk from one step to the other, on cyclic graphs too; none when they are one step or unconnected. |
| Graph.Reach | packages/shared/src/workflow-graph.ts:114-126 | The breadth-first closure is exactly what the start reaches, and it ends. |
| Graph.Expand | packages/shared/src/workflow-graph.ts:118-123 | The inner loop marks and queues what is new, once each. |
| Graph.BuildGraph | packages/shared/src/workflow-graph.ts:171-182 | Each list holds the other ends in the order of the edges. |
| Graph.GetAncestorNodes | packages/shared/src/template-vars.ts:213-246 | Each step with a path to the current one, triggers apart, exactly once. |
| Loops.LoopBodyOwners | packages/shared/src/workflow-graph.ts:191-201 | The first loop to claim an existing step owns it. |
| Loops.CollapseLoopBodies | packages/shared/src/workflow-graph.ts:213-233 | The loop returns the redrawn edges in order, the first of each key. |
| Loops.KeepsAllIffKeysTellApart | packages/shared/src/workflow-graph.ts:227-230 | Every redrawn edge is kept once exactly when equal keys mean equal edges. |
| Loops.KeyInjective | packages/shared/src/workflow-graph.ts:227 | Ids without `>` have keys of their own. |
| Loops.ArrowInIdLosesAnEdge | packages/shared/src/workflow-graph.ts:227 | An id holding the arrow can take another edge's key, and that edge is lost. |
| LoopQuotient.CollapsedIsQuotient | packages/shared/src/workflow-graph.ts:203-233 | If every loop passes `loopStructureError`, the run graph is exactly the quotient by "body step to its loop", branch labels included, without self-edges or repeats. |
| LoopQuotient.ReachKeptIffExitsBelowLoop | packages/shared/src/workflow-graph.ts:203-233 | Collapsing loses no path; steps outside loops reach exactly the same steps if and only if each loop leads wherever its body leads. |
| LoopQuotient.CollapsingCanAddAPath | packages/shared/src/workflow-graph.ts:203-233 | A graph whose loop is accepted and in which collapsing adds a path: the body step leads on, its loop does not. |
| LoopQuotient.PlainNamesTellApart | packages/shared/src/workflow-graph.ts:227 | Ids without `>` are enough for the keys to tell edges apart. |
| LoopQuotient.BodiesReachedThenExits | packages/shared/src/workflow-graph.ts:203-233 | Loops that reach their own body steps meet that condition. |
| LoopQuotient.StaysAcyclic | packages/shared/src/workflow-graph.ts:203-233 | Under it, a graph without cycles stays without. |
| LoopQuotient.OutOfBody | packages/shared/src/workflow-graph.ts:210-211 | The label that collapsing drops from an edge out of an accepted body was never there. |
| LoopQuotient.OwnerIsUnowned | packages/shared/src/workflow-graph.ts:191-201 | With accepted loops no loop is itself owned. |
| LoopBodies.LoopBodyGraph | packages/shared/src/workflow-graph.ts:242-263 | Members in the listed order, the edges between them or else the chain, and the members nothing inside feeds. |
| LoopBodies.LoopStructureError | packages/shared/src/workflow-graph.ts:272-316 | The first reason in the source order: members, then edges, then a cycle. |
| LoopBodies.AcceptedIffBodyOk | packages/shared/src/workflow-graph.ts:272-316 | A loop is accepted exactly when its body is non-empty, lists no step twice, holds only plain steps, is entered only from the loop, has no labelled exit, and its inner graph or chain has no cycle. |
| LoopBodies.CountVisited | packages/shared/src/workflow-graph.ts:300-314 | Kahn's algorithm leaves a member unvisited exactly when a step is listed twice or the inner graph has a cycle. |
| LoopBodies.VisitingStep | packages/shared/src/workflow-graph.ts:306-312 | One edge counted down keeps the counts, the queue and what is done in agreement. |
| LoopBodies.TopologicalIsAcyclic | packages/shared/src/workflow-graph.ts:300-314 | A list in which every arc goes forward rules out cycles. |
| LoopBodies.FedAllRoundIsCycle | packages/shared/src/workflow-graph.ts:300 | Steps that are all fed from among themselves hold a cycle: what is left over sits on one. |
| LoopBodies.RepeatedIdReadsAsCycle | packages/shared/src/workflow-graph.ts:314 | A body that lists a step twice is reported as cyclic though nothing in it runs in a circle. |
| LoopBodies.MembersReachedFromEntries | packages/shared/src/workflow-graph.ts:261-262 | Every member of an accepted body is reached from a member that starts each pass. |
| EditDistance.EditDistance | packages/shared/src/template-vars.ts:389-402 | The table, filled row by row, ends in the specified distance. |
| EditDistance.FillRow | packages/shared/src/template-vars.ts:393-399 | One row follows from the one above it. |
| EditDistance.DistIsLeastEdits | packages/shared/src/template-vars.ts:389-402 | The distance is the least number of insertions, deletions and substitutions turning one string into the other. |
| EditDistance.NoFewerEdits | packages/shared/src/template-vars.ts:389-402 | No chain of edits is shorter. |
| EditDistance.EnoughEdits | packages/shared/src/template-vars.ts:389-402 | A chain of that length exists. |
| EditDistance.DistZero | packages/shared/src/template-vars.ts:389-402 | Zero exactly on equal strings. |
| EditDistance.DistSymmetric | packages/shared/src/template-vars.ts:389-402 | Symmetric. |
| EditDistance.DistTriangle | packages/shared/src/template-vars.ts:389-402 | The triangle inequality. |
| EditDistance.SuggestNearestPath | packages/shared/src/template-vars.ts:404-416 | A first nearest candidate other than the path itself, and nothing exactly when none is within the threshold. |
| NestedQuantifier.ScannerIsExact | packages/connector-sdk/src/define.ts:78-131 | For every regex syntax tree as it prints, the scanner answers true exactly when some quantified group holds a quantifier at any depth. |
| NestedQuantifier.ScanShow | packages/connector-sdk/src/define.ts:99-129 | Scanning a printed expression leaves the open groups' flags as the tree says. |
| NestedQuantifier.OpeningTaken | packages/connector-sdk/src/define.ts:76 | `GROUP_OPEN` takes exactly what opens each form of group. |
| NestedQuantifier.HasNestedQuantifier | packages/connector-sdk/src/define.ts:89-131 | The index walk answers what scanning the rest of the pattern answers, escapes past the end included. |
| WitRoundTrip.ComesBackIffReadable | packages/core/crates/extensions/build.rs:40-47 | A type printed, tokenized and parsed comes back and uses up its tokens exactly when its primitives are known, its names are names and not keywords, and inside brackets none ends in a dash. |
| WitRoundTrip.ReadBack | packages/core/crates/extensions/build.rs:370-393 | A readable type is read down to exactly the brackets that close others. |
| WitRoundTrip.NotReadBack | packages/core/crates/extensions/build.rs:370-393 | A keyword, or a name whose dash is taken for an arrow, is never read back as itself. |
| WitRoundTrip.TypeTokensOf | packages/core/crates/extensions/build.rs:98-127 | The tokens of a printed type, the arrow a trailing dash makes included. |
| WitRoundTrip.ParserMakesParsed | packages/core/crates/extensions/build.rs:166-179 | The parser makes only known primitives and well-formed names. |
| WitTypes.Tokens | packages/core/crates/extensions/build.rs:98-127 | Line by line, comments cut off, each token with its line number. |
| WitTypes.WordsOf | packages/core/crates/extensions/build.rs:102-124 | The inner loop takes one token at a time off the front of the line. |
| WitTypes.WordEnd | packages/core/crates/extensions/build.rs:114-121 | A word ends at the first space, delimiter or arrow and nowhere before. |
| WitTypes.Parser.Type | packages/core/crates/extensions/build.rs:370-393 | Reads the type the tokens spell or fails naming the line; it ends on every input. |
| WitTypes.Parser.Ident | packages/core/crates/extensions/build.rs:166-179 | A name, its escape dropped, or the failure. |
| WitTypes.Parser.Eat | packages/core/crates/extensions/build.rs:156-164 | The wanted token, or what was found instead. |
| WitTypes.Parser.Next | packages/core/crates/extensions/build.rs:148-154 | The next token, or the end of the file. |
| PostReceive.PutThenGet | packages/connector-sdk/src/post-receive.ts:46-65 | Where a path resolves, what is put there is found there. |
| PostReceive.GetThenPut | packages/connector-sdk/src/post-receive.ts:46-65 | Putting back what is there changes nothing. |
| PostReceive.PutThenPut | packages/connector-sdk/src/post-receive.ts:46-65 | The last put stands. |
| PostReceive.PutLeavesOthers | packages/connector-sdk/src/post-receive.ts:46-65 | Every put at a path leaves another path as it was if and only if the two do not meet: neither runs out while each key of one leads where the same key of the other does. A path through an unsafe key leads nowhere in any value. |
| PostReceive.IncomparableApart | packages/connector-sdk/src/post-receive.ts:33-37 | Paths of which neither starts the other do not meet, unless an index is written in two ways on them. |
| PostReceive.OneItemTwoNames | packages/connector-sdk/src/post-receive.ts:33-37 | `01` and `1` name one list item, so incomparable paths may still meet. |
| PostReceive.ValueAt | packages/connector-sdk/src/post-receive.ts:29-43 | The loop is the lookup along the segments, unsafe keys and non-integer indices giving nothing. |
| PostReceive.SegmentsOfJoin | packages/connector-sdk/src/post-receive.ts:21-26 | Segments joined with dots and cut again come back. |
| PostReceive.WithValueAtIsWith | packages/connector-sdk/src/post-receive.ts:46-65 | Recursing by the re-joined path is recursing by the keys. |
| PostReceiveOps.OpLeavesOthers | packages/connector-sdk/src/post-receive.ts:94-117 | An op alters only what lives at its path, through any nesting of `map`: a path that does not meet it, or goes through it to what the op spares, keeps its value. |
| PostReceiveOps.OpsLeaveOthers | packages/connector-sdk/src/post-receive.ts:120-122 | So do several ops, left to right. |
| PostReceiveOps.PickKeepsNamed | packages/connector-sdk/src/post-receive.ts:67-76 | Picking keeps exactly the named fields an object has. |
| PostReceiveOps.PickFields | packages/connector-sdk/src/post-receive.ts:70-75 | The loop over the keys builds the picked fields, unsafe keys skipped. |
| PostReceiveOps.RenameInPlace | packages/connector-sdk/src/post-receive.ts:82-91 | A rename keeps every field's place, and drops the field whose name it takes. |
| PostReceiveOps.RenameFields | packages/connector-sdk/src/post-receive.ts:82-91 | The loop over the entries builds the renamed fields. |
| PostReceiveOps.FilterKeepsMatches | packages/connector-sdk/src/post-receive.ts:104-110 | A filter keeps the matching entries, in their order. |
| PostReceiveOps.FilterKeepsCounts | packages/connector-sdk/src/post-receive.ts:104-110 | Each as often as it stood there, and nothing that does not match. |
| Lines.ReadAll | packages/connector-sdk/src/lines.ts:4-28 | For every way of cutting a stream into chunks: the same lines as splitting the whole stream, up to the first line over the limit, and overflow exactly when the split has one. |
| Lines.LineReader.Push | packages/connector-sdk/src/lines.ts:10-27 | One chunk: the lines it completes, what stays pending, and whether a line went over the limit. |
| Lines.LineReader.Keep | packages/connector-sdk/src/lines.ts:23-26 | What is left of a chunk waits, unless it is too much. |
| Lines.OverflowIsLineOver | packages/connector-sdk/src/lines.ts:14 | Overflow is said exactly when some line of the stream is over the frame limit. |
| Lines.SplitUndoesTerminated | packages/connector-sdk/src/lines.ts:21 | Lines within the limit and without a trailing return come back from the stream they make. |
| Lines.SplitMore | packages/connector-sdk/src/lines.ts:8-9 | Splitting a longer stream is splitting what the shorter one left with the rest. |
| Pages.CollectPages | packages/connector-sdk/src/request.ts:263-328 | At most 100 requests, no address twice, each the one its strategy and the answer before ask for; on success the items in request order; each error exactly in its case; page counting never the repeat error. |
| Pages.EndsOnce | packages/connector-sdk/src/request.ts:275-325 | Those conditions settle the outcome and the requests. |
| Pages.RepeatIsFault | packages/connector-sdk/src/request.ts:289-291 | A cursor or link that comes round again ends in the error. |
| Pages.PagesDiffer | packages/connector-sdk/src/request.ts:283-287 | Counted pages never come round again. |
| Pages.NextAddress | packages/connector-sdk/src/request.ts:276-287 | The address of the next request. |
| Waker.NoWakeupIsLost | apps/ios/Vorn/Core.swift:104-123 | In every interleaving of rings one block at most has yet to clear the flag, and whatever was sent and not yet taken in is covered by a ring to come, that block, or a pump about to run. |
| Waker.CatchesUp | apps/ios/Vorn/Core.swift:44-52 | Once nothing more is sent, every run of steps, however it interleaves, is over within a bound, and one that can go no further has caught up with everything sent. |
| Waker.QuietHasSeenAll | apps/ios/Vorn/Core.swift:44-52 | Whenever all is quiet everything sent has been seen, and the screens were told if there was anything. |
| Waker.RingsCoalesce | apps/ios/Vorn/Core.swift:110-122 | While the flag is up no ring queues another block. |
| Waker.StepKeeps | apps/ios/Vorn/Core.swift:110-122 | Each step keeps one block to one raised flag. |
| Ids.EnsureUniqueSlug | packages/shared/src/template-vars.ts:28-33 | The first slug of the row that is free, within one more try than slugs are held. |
| Ids.SlugsRunOut | packages/shared/src/template-vars.ts:28-33 | As many slugs as are held can be taken, and no more. |
| Ids.ImportedWorkflowIdFor | packages/shared/src/workflow-portability.ts:91-102 | The first id of the row that is free or held under the same name, within one more attempt than workflows there are. |
| Ids.ImportsAgain | packages/shared/src/workflow-portability.ts:82-90 | Once stored, importing again finds the same id. |
| Ids.OtherNamesStepAside | packages/shared/src/workflow-portability.ts:82-90 | A workflow of another name never gets it. |
| Ids.ParsesBack | packages/shared/src/workflow-portability.ts:104-110 | An id gives back its bundle and slug exactly when the bundle holds no colon. |
| PortablePaths.MovesIffUnmarked | packages/shared/src/workflow-portability.ts:258-269 | A path in the exporting project whose tail spells no placeholder comes to the same place in any importing one; and into one whose path and name hold no brace only such a path does. |
| PortablePaths.ComesHomeIffUnmarked | packages/shared/src/workflow-portability.ts:246-256 | Back in its own project such a path is the same up to separators; and where path and name hold no brace only such a path is. |
| PortablePaths.ExportsAgainIffUnmarked | packages/shared/src/workflow-portability.ts:258-269 | Exporting such a path again restores the placeholder exactly when the importing project has a directory to name; and where path and name hold no brace only such a path is restored. |
| PortablePaths.NamedLikePlaceholder | packages/shared/src/workflow-portability.ts:311-317 | With braces in a name it can be otherwise: into a project named like its own placeholder a path may spell that placeholder and arrive all the same. |
| PortablePaths.ReplacedIs | packages/shared/src/workflow-portability.ts:258-269 | A path in the project becomes the placeholder and its tail. |
| PortableRoundTrip.PathsGoThrough | packages/shared/src/workflow-portability.ts:184-199 | A whole export and import does to every rewritten path what rewriting and filling in do to that path alone, whatever it spells. |
| PortableRoundTrip.PathsMove | packages/shared/src/workflow-portability.ts:184-199 | So every rewritten path that spells no placeholder arrives at the same place. |
| PortableRoundTrip.Rebinds | packages/shared/src/workflow-portability.ts:201-228 | A trigger or action bound to a connection unique in connector and name is bound to it again. |
| PortableRoundTrip.RebindsProfile | packages/shared/src/workflow-portability.ts:201-228 | So is a request bound to an auth profile. |
| PortableRoundTrip.SecretsStayUnbound | packages/shared/src/workflow-portability.ts:285-287 | What an export says of a script's key never binds it, wherever the file goes. |
| PortableRoundTrip.SecretStaysUnsetIff | packages/shared/src/workflow-portability.ts:319-323 | An import leaves a script's key unset exactly when no plain requirement of the step has an answer here. |
| PortableRoundTrip.PlainNeedBindsSecret | packages/shared/src/workflow-portability.ts:319-323 | So a file edited by hand to hold a plain requirement for a script has its key bound by the import. |
| PortableRoundTrip.HookTokenIsMinted | packages/shared/src/workflow-portability.ts:181-182 | A webhook's token does not travel: the import has one of its own. |
| PortableRoundTrip.OwnNeed | packages/shared/src/workflow-portability.ts:300-303 | A file names each step's own requirement, and no other, under its id. |
| Portability.ResolvesIffAnswer | packages/shared/src/workflow-portability.ts:152-167 | A requirement resolves to an id exactly when one connection alone fits by connector and name, or no such one and one alone fits by connector. |
| Portability.NeverAnotherConnectors | packages/shared/src/workflow-portability.ts:152-167 | Whatever is bound belongs to the connector asked for. |
| Portability.ToPortable | packages/shared/src/workflow-portability.ts:170-244 | Every step exported, the requirements in step order. |
| Portability.FromPortable | packages/shared/src/workflow-portability.ts:290-346 | Every step imported with the requirements filed under its id. |
| Portability.BindNode | packages/shared/src/workflow-portability.ts:319-323 | The loop binds what has an answer, in order, and nothing that binds only by hand. |

## Left out

- Instants and item ids in the dedupe modules are integers: `Date` parsing, the text form of timestamps and string
  collation are not modelled, nor is a cursor edited by hand to hold a timestamp that is not an ISO one.
- Starvation.OneInstantDrainsIff: at most 500 and a page says the drain succeeds, not that nothing comes twice; that is
  TimestampDrain.DrainIsBacklogIffFits.
- A limit of zero in a drain, which answers an empty page and ends; negative limits, which `slice` would count from the
  end; and a `fetch` that does not return a list.
- The fields `normalizeItem` fills in; only its checks are modelled.
- HTTP headers, the event-stream framing of `messagesIn`, error texts, the `console.error` lines and a body
  whose cancellation fails are not modelled; a reconnect may give up at any failed attempt, the clock being in
  `RelayBackoff`.
- Steps with an empty id, which `collapseLoopBodies` would not take for an owner, and the labels shown in structure
  errors.
- LoopQuotient.StaysAcyclic: one direction only; a run graph may happen to stay acyclic though a loop does not lead where
  its body leads.
- `Number(key)` for list indices is a parameter: the laws hold for whatever it yields. A negative index, which a put
  would turn into a property of the list, changes nothing here; the ops only put where the path resolves.
- PostReceiveOps.RenameInPlace: JavaScript lists integer-like keys first whatever order they were added in; objects here keep
  the order they stand in.
- PortablePaths.MovesIffUnmarked: its converse leaves out projects with a brace in the path or the name, where a path
  may spell a placeholder and arrive all the same (PortablePaths.NamedLikePlaceholder); so do the converses of
  PortablePaths.ComesHomeIffUnmarked and PortablePaths.ExportsAgainIffUnmarked.
- PortablePaths.ComesHomeIffUnmarked: the same.
- PortablePaths.ExportsAgainIffUnmarked: the same.
- Decoding UTF-8 in the line reader: a line is its bytes.
- Pages.CollectPages: an address is its place and its parameters; how `URL` rewrites the text of an address is not
  modelled, so two spellings of one address count as one.
- The templates, HTTP calls and `Link` header pattern around `collectPages`.
- The rest of `build.rs`: `package`, `interface`, `func`, `check` and the generated Rust; a file whose aliases run in a
  circle is therefore out of reach here.
- WitTypes.Parser.Type: where the parser stands after a failure is not stated beyond its bounds; every caller gives up.
- `Core.woke` is a pump and a look at the revision, which moves exactly when something was pumped; its navigation, and a
  core that is gone when the block runs, are not modelled.
- `slugify`, the workflow's name, icon and edges, which an export copies, and `unresolvedRequirements`.
- Portability.FromPortable: order of config keys is not modelled; each text is resolved on its own.
- `defineConnector`, `resilience.ts`, `server.ts`, the MCP tool registrations, packaging, the screens and the example
  extensions would only add members that one branch settles.
- vornd's engine, store and scheduler are not part of this model.
