# A verified model of swayr's core

This project models the parts of the `swayr` crate whose correctness is not visible from
one function at a time, and proves what they promise.  `dafny verify dfyconfig.toml`
checks everything.

* **The LRU focus protocol.**  A monitor thread numbers sway's events (`Monitor`), a
  lock-in thread with two nested receive loops decides which of them reach the tick map
  (`LockIn`), command threads inhibit and activate it, and all of them share the ticks and
  a FIFO channel.  `Daemon` is the step system of all threads: a run is any interleaving
  of single lock acquisitions and channel operations.  `AutoNop` is the thread that ends
  command sequences.
* **The switching engines.**  `Switching` is the engine behind the switch-to commands,
  with state that lives across commands; `SwitchSequences`, `SwitchTours` and
  `SwitchRuns` are about whole series of such commands.  `Cycling` is the next/previous engine, and `CyclingRuns`
  puts it on top of `Daemon`.
* **The tree and the query language.**  `Nodes` and `Traversals` have the iterator, `Trees` and `Ancestors`
  the id/parent index, `Listings` and `Menus` the ordered listings.  `CriteriaParser` is
  the PEG; `CriteriaText` is a declarative description of every way to spell a criterion;
  `CriteriaRoundTrip` proves that the two are the same language, `CriteriaQueries` says what
  the literal texts mean, `CriteriaSelection` which windows they select, and
  `CriteriaNewlines` what newlines do.

The main results:

1. On every input trace the nested loops lock in exactly the newest waiting focus event,
   and only at a trigger read off the trace (`LockIn.LockInsFromTrace`); they refine a
   one-slot debouncer (`LockIn.HandlerRefinesDebouncer`).
2. In every run of the daemon, lock-ins have strictly increasing counters, an effective
   one makes its node the strict maximum, no two nodes share a nonzero tick, and a node
   has a tick entry exactly when the monitor's own events say so
   (`Daemon.PresenceByEvents`); the channel carries exactly the numbered focus events, in
   order (`Daemon.ChannelCarriesEvents`).
3. While the ticks are inhibited, n next-window commands focus each of n matching windows
   exactly once and end where they began, in every interleaving with the daemon's threads
   (`CyclingRuns.FullCycle`, and from the daemon's start `CyclingRuns.FullCycleFromStart`);
   equally many next and previous commands cancel out.
4. An undisturbed series of switch commands visits every urgent or matching window once,
   then the LRU window, then the origin (`SwitchTours.SwitchTour`), in the documented order
   exactly when the LRU window is not urgent, is skipped, or has only urgent rivals
   (`SwitchTours.DocumentedOrderExactly`), and the daemon records it as one sequence
   (`SwitchRuns.CommandTour`); in an arbitrarily changing world no sequence
   visits a window twice (`SwitchSequences.EverySequenceSound`).  Each visit goes to the
   first window of the current list that is still to be visited
   (`SwitchTours.TourInListOrder`).
5. The parser accepts a text exactly when the text spells a criterion, and returns the
   criterion it spells (`CriteriaRoundTrip.ParserIsGrammar`); it returns exactly the
   criteria whose strings have no double quote and whose integers fit
   (`CriteriaPrinter.ParserRange`).  A newline outside double quotes makes any text
   unreadable, and without one newlines change nothing
   (`CriteriaNewlines.NewlinesExactly`).  Queries combine as documented, from their texts
   to the windows they select (`CriteriaSelection.CombinedQueries`).
6. Looking nodes up in the parent index agrees with traversing the tree, for the nearest
   ancestor of a type, the depth, and the current-workspace filter; the indented output
   menu shows the tree (`Menus.IndentShowsParent`).

## What is assumed

* Sway's guarantees about its tree are preconditions: unique ids other than -1, at most
  one focused node, workspaces not nested in workspaces, outputs exactly below the root.
* Ticks are read as one snapshot during a sort, and counters do not overflow.
* Regular expressions are their pattern texts; matching is a parameter, so the fallback
  for invalid patterns belongs to that parameter.
* The lock-in delay is an input: a trace says where it passed without a message.
* `Type.Unknown` stands for the panic of `get_type`.
* Sway's side of `focus_window_by_id` is that the window becomes the focused one.

## Where code and documentation differ

The model follows the code in each case.

* `app_name=__focused__` compares with `!=`: `Criteria.AppNameFocusedMeaning` and
  `Criteria.AppNameFocusedCounterexample`.
* An urgent LRU window waits for the LRU step, behind windows that merely match:
  `SwitchTours.UrgentLruCounterexample` and `SwitchTours.WholeSequenceCounterexample` show
  it, and `SwitchTours.DocumentedOrderExactly` has the exact condition under which a
  sequence keeps the documented order.
* A newline is not a separator in queries, although the documented example has one:
  `CriteriaNewlines.NewlineCounterexample` and, for every query of the documented layout,
  `CriteriaNewlines.DocumentedLayout`; the exact condition for every text is in
  `CriteriaNewlines.NewlineAsBlankExactly`.
* With `seq_inhibit` off an ignored message still restarts the lock-in wait; the trace's
  explicit timeouts cover that, see `LockIn.InhibitMessagesIgnored`.

## Model

| member | source | states |
|---|---|---|
| Focus.FocusData.UpdateLastFocusTick | swayr/src/focus.rs:35-41 | overwrites the tick of a node that still has an entry and changes nothing otherwise |
| Focus.FocusData.RemoveFocusData | swayr/src/focus.rs:43-45 | drops exactly one entry |
| Focus.FocusData.EnsureId | swayr/src/focus.rs:50-55 | adds a zero entry only where there was none |
| Focus.FocusData.Send | swayr/src/focus.rs:57-65 | appends the message to the channel, ensuring the node's entry first for focus events |
| LockIn.UpdateFocus | swayr/src/daemon.rs:338-343 | the update closure writes exactly the event it is given, if any |
| LockIn.FocusLockInHandler | swayr/src/daemon.rs:326-419 | the nested receive loops produce the lock-in sequence of the step function over any trace, and write those ticks in order and no others |
| LockIn.StepRefines | swayr/src/daemon.rs:346-418 | every receive of the two loops is one step of the one-slot debouncer and keeps its invariant |
| LockIn.HandlerRefinesDebouncer | swayr/src/daemon.rs:333-418 | over whole traces the handler and the debouncer hold the same event and commit the same sequence |
| LockIn.StateFromTrace | swayr/src/daemon.rs:333-418 | the inhibit flag and the held event are functions of the trace: last inhibit or activate, and newest focus event with no trigger since |
| LockIn.LockInsFromTrace | swayr/src/daemon.rs:333-418 | an input locks in an event if and only if that event is the newest one waiting and the input is an activate or a timeout while not inhibited |
| LockIn.FocusEventFate | swayr/src/daemon.rs:333-418 | every received focus event is locked in once, superseded, or still held, and only one of these |
| LockIn.NothingLockedInWhileInhibited | swayr/src/daemon.rs:359-376 | between an inhibit and the next activate nothing is locked in |
| LockIn.InhibitMessagesIgnored | swayr/src/daemon.rs:352-358 | with seq_inhibit off, erasing all inhibit and activate messages leaves the state, the lock-ins and the ticks the same |
| Monitor.HandleWindowEvent | swayr/src/daemon.rs:143-184 | focus and new windows get an entry, closed ones lose it, and only focus sends a message, with the event's number; these three report an effect |
| Monitor.HandleWorkspaceEvent | swayr/src/daemon.rs:186-218 | opened and focused workspaces get an entry and send a message with the event's number, emptied ones lose their entry, others do nothing |
| Monitor.MonitorSwayEvents | swayr/src/daemon.rs:72-141 | over any series of connections the counter is the number of window and workspace events handled, and each focus message carries its event's number |
| Monitor.MessageCountersIncrease | swayr/src/daemon.rs:72-111 | across reconnects the counters of the messages sent strictly increase |
| Monitor.MessagesByEvents | swayr/src/daemon.rs:152-208 | a message with number n is sent if and only if the n-th event focuses that window, or opens or focuses that workspace |
| Monitor.GivesUpAfterTen | swayr/src/daemon.rs:74-88 | ten failed attempts in a row end the monitor |
| Monitor.ConnectionHandled | swayr/src/daemon.rs:81-137 | below ten failures a connection delivers its counted events up to the first shutdown, and one that delivers anything clears the count |
| Daemon.InvPreserved | swayr/src/daemon.rs:35-62 | every step of every thread keeps the pipeline of events numbered in order, the ticks explained by lock-ins, and the handler equal to its trace |
| Daemon.LockInsIncrease | swayr/src/daemon.rs:72-111 | in every run lock-ins have strictly increasing counters |
| Daemon.TicksUnique | swayr/src/focus.rs:35-41 | in every run no two nodes share a nonzero tick |
| Daemon.LockInIsStrictMaximum | swayr/src/daemon.rs:338-343 | in every run a lock-in of a node that still exists makes it the strict maximum of the ticks |
| Daemon.PresenceDecidedByMonitor | swayr/src/focus.rs:35-65 | after any run a node has an entry if and only if the monitor added it and did not remove it since, whatever is queued, in flight or pending |
| Daemon.PresenceByEvents | swayr/src/daemon.rs:152-216 | the same from the start of the daemon, by the events' names: focused or new windows and opened or focused workspaces, until closed or emptied |
| Daemon.ChannelCarriesEvents | swayr/src/daemon.rs:94-111 | in every run the focus messages received, queued and about to be sent are exactly those of sway's events, in order |
| Daemon.FreezeBegins | swayr/src/daemon.rs:359-362 | receiving an inhibit freezes the ticks if and only if no activation is queued behind it |
| Daemon.FrozenUntilActivated | swayr/src/daemon.rs:352-376 | from then on, in every run, no tick of an open node changes before a command other than next or previous |
| AutoNop.AutoNopLoop | swayr/src/daemon.rs:235-257 | the waiter executes one nop per block of timeouts; each sends an activation, and the first one after another command ends the switch sequence and becomes the last command |
| AutoNop.NopExactly | swayr/src/daemon.rs:242-254 | a timeout executes a nop if and only if the last wait before it, poisoned ones aside, did not time out |
| AutoNop.HowWaitsEnd | swayr/src/daemon.rs:237-271 | a notification wakes a waiting thread, the delay times it out, and a notification without a wait is lost |
| AutoNop.NopsNeedWakes | swayr/src/daemon.rs:236-255 | two nops are separated by a wake-up |
| AutoNop.NopsBoundedByRequests | swayr/src/daemon.rs:229-271 | in every run there is at most one nop more than there were requests, for all interleavings of waiter and notifier |
| Nodes.NodeIter.Next | swayr/src/shared/ipc.rs:58-70 | one pop and its pushes take exactly one step of the preorder |
| Nodes.Iterate | swayr/src/shared/ipc.rs:45-71 | draining the iterator terminates and yields the recursive preorder |
| Nodes.PreorderPermutes | swayr/src/shared/ipc.rs:55-71 | the iterator yields every node of the tree, each as often as it occurs |
| Traversals.TraversalOrder | swayr/src/shared/ipc.rs:42-71 | the traversal is depth first, parents before everything below them, everything tiled before everything floating, and later siblings before earlier ones |
| Listings.TypeMeaning | swayr/src/shared/ipc.rs:99-135 | which nodes are windows, containers, workspaces, outputs and roots, by their fields |
| Trees.Index.InitIdParent | swayr/src/tree.rs:264-282 | the recursion enters the nodes in listing order and the child edges with them |
| Trees.GetTree | swayr/src/tree.rs:284-294 | the index of a root is the one that the lemmas are about |
| Trees.IndexIsTree | swayr/src/tree.rs:264-294 | the node map holds exactly the tree's nodes under their ids, and the parent map exactly the child edges |
| Ancestors.ParentStep | swayr/src/tree.rs:53-61 | a parent entry always leads to an existing node, one step up the root path |
| Ancestors.GetParentNodeOfType | swayr/src/tree.rs:63-76 | terminates, finds every node it looks up, and returns the last node of the type on the root path |
| Ancestors.GetIndentLevel | swayr/src/tree.rs:396-408 | the parent loop computes the depth of the node less the offset, and zero below it |
| Ancestors.WorkspaceLookupIsTraversal | swayr/src/tree.rs:63-76 | the index assigns a node to a workspace if and only if traversing that workspace meets the node |
| Listings.SortIsRanked | swayr/src/tree.rs:180-196 | the sort is a permutation with urgent nodes first and then descending ticks |
| Sorting.SortByStable | swayr/src/tree.rs:185-195 | nodes that are tied keep their order |
| Listings.GetWindows | swayr/src/tree.rs:135-157 | the loop that moves urgent windows out and rotates the rest computes the window list |
| Listings.WindowsInSwitchOrder | swayr/src/tree.rs:135-157 | the list is a permutation of all windows: urgent ones first by descending tick, a most recent other window last |
| Listings.ListedAsWindow | swayr/src/tree.rs:135-157 | the list holds exactly the floating nodes and the containers with a process, each once |
| Listings.CurrentWorkspaceMeaning | swayr/src/tree.rs:111-115 | a workspace is the current one if and only if the focused node is in it |
| Listings.SomeCurrentWorkspace | swayr/src/tree.rs:111-115 | there is a current workspace if and only if the focus is in some workspace |
| Listings.ConsideredIsTraversal | swayr/src/cmds.rs:1222-1230 | cycling in the current workspace considers exactly the windows that the iterator yields from that workspace, each once |
| Listings.ConsideredSharesWorkspace | swayr/src/cmds.rs:1222-1230 | with the focus on a window, these are exactly the windows in the same workspace as the focused one, which is among them |
| Menus.Listing.PushSubtreeSorted | swayr/src/tree.rs:198-213 | the recursion appends the sorted flattening of the subtree to the shared vector |
| Menus.SortedSubtreePermutes | swayr/src/tree.rs:198-213 | the flattening is a permutation of the subtree |
| Menus.SubtreeIsBlock | swayr/src/tree.rs:198-213 | every subtree appears as one contiguous block of the flattening, its root first |
| Menus.SiblingsInMenuOrder | swayr/src/tree.rs:206-212 | siblings appear urgent first, then by descending tick |
| Menus.GetOutputsWorkspacesContainersAndWindows | swayr/src/tree.rs:215-227 | the menu is the flattening of all sorted outputs |
| Menus.OutputMenuListsAll | swayr/src/tree.rs:215-227 | the menu lists exactly the nodes below the root, each once |
| Menus.OutputMenuBlock | swayr/src/tree.rs:215-227 | every subtree below the root is one contiguous block of the menu, its root first |
| Menus.OutputMenuSiblings | swayr/src/tree.rs:215-227 | in the menu, outputs and siblings alike appear urgent first, then by descending tick |
| Menus.IndentedOutputMenu | swayr/src/tree.rs:215-227 | each entry of the menu is indented by its depth less one |
| Menus.IndentShowsParent | swayr/src/tree.rs:396-408 | the parent of an entry is the nearest entry above it that is indented less, by exactly one level |
| Menus.UnindentedAreOutputs | swayr/src/tree.rs:396-408 | the entries without indentation are exactly the outputs |
| Switching.MostRecent | swayr/src/cmds.rs:711-719 | a window with the greatest tick, if there is any window |
| Switching.MostRecentIsLast | swayr/src/cmds.rs:711-719 | of several windows with the greatest tick the last one is taken |
| Switching.SwitchToMatchingData.ResetData | swayr/src/cmds.rs:340-349 | clears the sequence, and the flags only on request |
| Switching.SwitchToMatchingData.FocusUrgentOrMatchingOrLru | swayr/src/cmds.rs:692-787 | the invocation leaves the data and focuses the window that the engine function says, with at most one nested call |
| Switching.SwitchTargetsUnfocusedWindow | swayr/src/cmds.rs:736-761 | whatever is focused is an open window that was not focused |
| Switching.SwitchAlwaysSwitches | swayr/src/cmds.rs:692-787 | with the LRU step on, an invocation focuses a window whenever some window is unfocused; one that focuses nothing leaves the data reset |
| SwitchSequences.Commands.ExecSwayrCmd | swayr/src/cmds.rs:366-447 | a command sends inhibit or activate, a different command starts over, and a switch command sets its own flags and runs the engine once, unless its query does not parse |
| SwitchSequences.Commands.SwitchWith | swayr/src/cmds.rs:817-833 | a switch command whose query does not parse sets the flags and focuses nothing; any other is one engine invocation with its flags |
| SwitchSequences.ExecRunsSwitch | swayr/src/cmds.rs:375-447 | the recorded history has the data of the engine invocation, or only the flags when the query does not parse |
| SwitchSequences.EngineRunsExactly | swayr/src/cmds.rs:817-833 | a switch command runs the engine if and only if it has no query or its query spells a criterion |
| SwitchSequences.UnreadableQuery | swayr/src/cmds.rs:817-833 | a query that spells nothing sets the flags, starts over if the command is new, and visits nothing |
| SwitchSequences.ExecRecordsVisit | swayr/src/cmds.rs:745-761 | the window focused by a switch command is the newest visit of the history |
| SwitchSequences.ExecKeepsInv | swayr/src/cmds.rs:375-447 | every command in every world keeps all sequences sound and the origin and LRU window of the open one fixed |
| SwitchSequences.EverySequenceSound | swayr/src/cmds.rs:704-761 | between two resets no window is visited twice, the origin only as closing step, the LRU window only in its own step unless skipped |
| SwitchTours.CandidatesAreUnseen | swayr/src/cmds.rs:736-745 | during a sequence the engine's candidates are exactly the urgent or matching windows that had no focus since its start and are not kept for the LRU step |
| SwitchTours.SwitchTour | swayr/src/cmds.rs:700-761 | if only the commands move the focus and unseen windows stay as urgent or matching as they were, a fresh series visits each urgent or matching window exactly once, then the LRU window, then the origin if a window was focused at the start, and is then reset; for all skip flags, with at least one window to visit if the LRU step is skipped |
| SwitchTours.FirstCandidateNext | swayr/src/cmds.rs:736-745 | a step goes to the candidate that no other candidate precedes in the list |
| SwitchTours.NextOnTree | swayr/src/cmds.rs:736-745 | on the windows of a tree that is a candidate that no other one outranks: urgent ones first, then greater ticks, the most recent other window last |
| SwitchTours.TourInListOrder | swayr/src/cmds.rs:736-745 | in a whole sequence every visit goes to a window listed before all those visited later |
| SwitchTours.TourByRank | swayr/src/cmds.rs:736-745 | and, with its list in switch order, to one that outranks them |
| SwitchTours.NothingToVisit | swayr/src/cmds.rs:757-786 | with the LRU step skipped and no window to visit, a fresh sequence focuses nothing and stays fresh |
| SwitchRuns.CommandTour | swayr/src/cmds.rs:375-447 | a switch command repeated after any other command, in an undisturbed world, records exactly one more sequence, from the origin and LRU window of its start and with the tour as its visits; the return to the origin closes it, and without an origin or with that step skipped it stays open |
| SwitchTours.DocumentedOrderExactly | swayr/src/cmds.rs:736-761 | a whole sequence goes urgent, matching, LRU, origin if and only if the LRU step is skipped, or the LRU window is not urgent, or every other candidate is urgent; a window without urgency goes before the LRU step if and only if some candidate at the start has none |
| SwitchTours.WholeSequenceCounterexample | swayr/src/cmds.rs:738-755 | a whole sequence that meets every assumption of the whole-sequence results and breaks the documented order |
| SwitchTours.LruWindowWaits | swayr/src/cmds.rs:736-755 | the first command of a sequence goes to the LRU window if and only if the engine has no candidate |
| SwitchTours.UrgentLruCounterexample | swayr/src/cmds.rs:738-738 | a matching window goes before an urgent LRU window, against the documented order |
| SwitchTours.UrgentFirst | swayr/src/cmds.rs:736-745 | with the list in switch order, an urgent candidate of at least the tick of any other is next |
| Listings.WindowsWellFormed | swayr/src/tree.rs:135-157 | window lists from sway's tree have unique ids and at most one focused window |
| SwitchTours.UrgentFirstOnTree | swayr/src/cmds.rs:736-745 | on the windows of a tree, the most recent urgent candidate is next while there is one |
| Cycling.CycleOrderCorrect | swayr/src/cmds.rs:1161-1172 | the cycle consists of exactly the matching windows by descending tick |
| Cycling.WalkCycle | swayr/src/cmds.rs:1174-1194 | the loop over the infinite iterator terminates and returns the neighbour of the current window |
| Cycling.FocusWindowInDirection1 | swayr/src/cmds.rs:1155-1195 | focuses nothing exactly when nothing matches; otherwise, on any well-formed window list and with any ties among the ticks, the neighbour in tick order of the one current window |
| Cycling.CurrentExists | swayr/src/cmds.rs:1174-1180 | on every well-formed list with a match, ties included, exactly one place of the cycle holds the current window |
| Cycling.FocusWindowInDirection | swayr/src/cmds.rs:1212-1233 | the same for the windows of a tree that are considered, all or those of the current workspace |
| Cycling.FocusByTick | swayr/src/cmds.rs:1182-1194 | by ticks alone: next focuses the matching window that follows the focused one in time, or else the least recent, and previous the one before it, or else the latest |
| Cycling.CycleOrderIds | swayr/src/cmds.rs:1168-1172 | with distinct ticks the order does not depend on how the windows were listed |
| CyclingRuns.FocusNext | swayr/src/cmds.rs:1182-1194 | the step of a run is what the loop over the iterator returns |
| CyclingRuns.VisitsAlongRun | swayr/src/cmds.rs:1155-1195 | in every run while inhibited, each command lands where the turns so far lead in the frozen order |
| CyclingRuns.FullCycle | swayr/src/cmds.rs:1155-1195 | as many next commands as windows focus each window exactly once and end where they began |
| CyclingRuns.FullCycleFromStart | swayr/src/cmds.rs:1155-1195 | the same after any run of the daemon from its start that leaves the ticks inhibited with at most one matching window unknown to them; the round ends at the window focused before, or at a most recent matching one |
| CyclingRuns.ForwardAndBackwardUndo | swayr/src/cmds.rs:1182-1194 | equally many next and previous commands in any order return to the start |
| Criteria.AppNameFocusedMeaning | swayr/src/criteria.rs:195-201 | keeps the documented literal comparison if and only if nothing is focused |
| Criteria.AppNameFocusedCounterexample | swayr/src/criteria.rs:198-198 | a focused window that does not match its own name |
| Criteria.WorkspaceFocusedMeaning | swayr/src/criteria.rs:272-284 | selects a window if and only if some workspace's traversal meets both it and the focused window |
| CriteriaSelection.EmptyGroups | swayr/src/criteria.rs:176-181 | the empty conjunction selects all windows and the empty disjunction none |
| CriteriaSelection.AndSelectsInTurn | swayr/src/criteria.rs:176-178 | a conjunction selects with one member after the other |
| CriteriaSelection.OrIsDual | swayr/src/criteria.rs:179-181 | a disjunction is the dual of a conjunction |
| CriteriaSelection.NotPartitions | swayr/src/criteria.rs:182-182 | a criterion and its negation part the windows between them |
| CriteriaSelection.AppIdSelects | swayr/src/criteria.rs:183-194 | app ids match by pattern, or equal that of the focused window |
| CriteriaSelection.ClassSelects | swayr/src/criteria.rs:202-223 | window classes likewise |
| CriteriaSelection.InstanceSelects | swayr/src/criteria.rs:224-245 | window instances likewise |
| CriteriaSelection.TitleSelects | swayr/src/criteria.rs:288-299 | titles likewise |
| CriteriaSelection.ShellSelects | swayr/src/criteria.rs:246-257 | shells equal the given one, or that of the focused window |
| CriteriaSelection.AppNameMeaning | swayr/src/shared/ipc.rs:145-163 | an application's name is its id, else its class, else its instance, else a fixed text |
| CriteriaSelection.AppNameSelects | swayr/src/criteria.rs:195-201 | application names match by pattern |
| CriteriaSelection.ConMarkSelects | swayr/src/criteria.rs:262-262 | some mark matches the pattern |
| CriteriaSelection.NumbersSelect | swayr/src/criteria.rs:258-263 | ids and process ids are equal |
| CriteriaSelection.LayoutsSelect | swayr/src/criteria.rs:286-287 | every window is either floating or tiling, by its node type |
| CriteriaSelection.FocusedSelectsItself | swayr/src/criteria.rs:183-299 | the focused form of a key selects the focused window whenever the property is set |
| CriteriaSelection.FocusedIdSelects | swayr/src/criteria.rs:258-261 | the focused container id selects the focused window and no other |
| CriteriaSelection.WorkspacePatternSelects | swayr/src/criteria.rs:264-271 | a workspace pattern selects the windows met in the traversal of a workspace whose name matches |
| CriteriaSelection.ContextOfList | swayr/src/criteria.rs:304-311 | the focused window of the context is the window of the list with the focus |
| CriteriaSelection.CombinedQueries | swayr/src/criteria.rs:118-182 | from text to windows: an and-query of two queries selects with both, an or-query with either, and a negation the rest |
| CriteriaSelection.ExtremeQueries | swayr/src/criteria.rs:118-181 | the texts of the empty conjunction select all windows, that of the empty disjunction none |
| CriteriaParser.CriterionRule | swayr/src/criteria.rs:134-141 | every accepted criterion consumes input, so lists with empty separators terminate |
| CriteriaTokens.OperandReads | swayr/src/criteria.rs:76-116 | every operand is read back whatever follows, unless a digit continues it |
| CriteriaTokens.SimpleOfReads | swayr/src/criteria.rs:136-141 | the ordered choice acts as if only the key that is written were tried |
| CriteriaRoundTrip.DocReads | swayr/src/criteria.rs:118-141 | every spelling of a criterion is read back exactly, up to trailing space |
| CriteriaRoundTrip.ParserReadsEverySpelling | swayr/src/criteria.rs:73-147 | every spelling with any leading space parses to its meaning |
| CriteriaRoundTrip.CriterionRead | swayr/src/criteria.rs:134-141 | whatever a rule accepts is a spelling of the criterion it returns |
| CriteriaRoundTrip.ParserIsGrammar | swayr/src/criteria.rs:143-157 | a text parses to a criterion if and only if it spells that criterion |
| CriteriaQueries.BareQueries | swayr/src/criteria.rs:91-92 | the texts of the two bare criteria |
| CriteriaQueries.QuotedQueries | swayr/src/criteria.rs:93-110 | each of the seven keys with a quoted text, and any blanks and tabs around the equals sign, means its own criterion |
| CriteriaQueries.FocusedQueries | swayr/src/criteria.rs:83-116 | each of the eight keys with the focused form means its own criterion |
| CriteriaQueries.ShellQuery | swayr/src/criteria.rs:111-116 | `shell` with either shell means that criterion |
| CriteriaQueries.PidQuery | swayr/src/criteria.rs:107-108 | `pid` with any decimal digits and sign means the number they write in base ten if it fits 32 bits, and is no query otherwise |
| CriteriaQueries.ConIdQuery | swayr/src/criteria.rs:105-106 | `con_id` likewise for 64 bits |
| CriteriaQueries.AndQueries | swayr/src/criteria.rs:118-122 | any number of queries after nothing, `and`, `AND` or `&&` in brackets mean the conjunction of their meanings |
| CriteriaQueries.OrQueries | swayr/src/criteria.rs:124-128 | after `or`, `OR` or two bars they mean the disjunction |
| CriteriaQueries.NotQueries | swayr/src/criteria.rs:130-132 | a query after `not`, `NOT` or `!` means its negation |
| CriteriaQueries.LeadingSpace | swayr/src/criteria.rs:143-145 | blanks and tabs in front of a query change nothing |
| CriteriaQueries.BaseTen | swayr/src/criteria.rs:76-79 | the places of a number on an example |
| CriteriaPrinter.Print | swayr/src/criteria.rs:41-61 | every expressible criterion has a spelling with exactly its meaning |
| CriteriaPrinter.ParsePrinted | swayr/src/criteria.rs:149-157 | parsing a printed criterion gives it back |
| CriteriaPrinter.ParserRange | swayr/src/criteria.rs:76-81 | a criterion is the result of some query if and only if its strings have no double quote and its integers fit |
| CriteriaNewlines.TextClean | swayr/src/criteria.rs:75-141 | every spelling of a criterion has balanced double quotes and no newline outside them |
| CriteriaNewlines.NewlinesExactly | swayr/src/criteria.rs:75-75 | every text with a newline outside double quotes fails to parse, and every other text parses to what it would with blanks for newlines |
| CriteriaNewlines.NewlineAsBlankExactly | swayr/src/criteria.rs:75-75 | a newline acts as a blank if and only if none is outside double quotes, or the text is no query with blanks either |
| CriteriaNewlines.NewlineEndsQuery | swayr/src/criteria.rs:75-75 | whatever follows, no text parses that has a newline after text with balanced quotes |
| CriteriaNewlines.NewlineIsNoSpace | swayr/src/criteria.rs:75-75 | in particular no text parses that begins like a group and has a newline directly after the first member of that group |
| CriteriaNewlines.DocumentedLayout | swayr/src/criteria.rs:73-147 | an or-group with its two members on two lines never parses, for all members and indentations; with a blank for the newline it parses to its meaning |
| CriteriaNewlines.NewlineCounterexample | swayr/src/criteria.rs:75-75 | a concrete two-line query that does not parse although its one-line form does |

## Left out

- The `ExecuteSwayrCommand` branch, which runs a command while holding the command's own locks.
- `get_workspaces`, `get_workspaces_and_windows`, `get_outputs` and the workspace menu: they would repeat the window list and output menu with another root set.
- `get_root_node`'s removal of the scratchpad output: trees are given without it.
- The fixed indent levels of `get_indent_level`: constants.
- The wrappers that build the predicate of a switch command from an app name, a mark or a query: the engine is proved for every predicate.
- `layout.rs` and the tile and tab commands: their effect belongs to sway.
- Formatting, icons, configuration, menus, sockets, JSON and logging: I/O and library calls.
- The 64-bit range of ids, ticks and counters; only the integers of the query language are bounded.
- Wall-clock time and liveness: timeouts are inputs, and a notification to an automatic nop thread that does not wait is lost.
- Daemon.PresenceDecidedByMonitor: says when a node has an entry, not which tick the entry holds; the tick is covered by the lock-in results.
- The whole of swayrbar.
