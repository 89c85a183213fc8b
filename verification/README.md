# Models of the tray loader's protocols, caches and codecs

Each module models one part of the repository that keeps its state correct across threads, deferred
deletions or reordered events, and proves what that part is for. Most follow one shape: a `State`, the
atomic steps that can be interleaved, an invariant kept by every step, theorems over every run, and a
class with the source's own fields whose methods are proved to do those steps. Where a promise does not
hold of the code, a concrete run shows it and a lemma says exactly when it does hold.

- `ConfigCache.dfy` - the settings proxy that `dconfig2cpp` generates: a GUI thread and a config thread
  share cached values, with one mark bit per property (`PropertyBits`) and two queues.
- `Brightness.dfy` - brightness requests that are coalesced into one slot while handlers, pool workers
  and finish events are outstanding.
- `TrayRegistry.dfy` - the StatusNotifier and XEmbed registries and the process table they share. An
  entry with the enumerator `UNKNOWN` is the same as no entry.
- `InputShape.dfy` - the cache of input shapes that keeps leave events from feeding themselves, against
  an X server whose windows are destroyed and whose ids are recycled.
- `MenuMirror.dfy` - the mirror of a D-Bus menu, with deferred deletions and one global id map.
- `Mnemonic.dfy`, `Shortcut.dfy`, `LayoutCodec.dfy` - the text and tree codecs of the menu library.
- `CardSurface.dfy` - the lifecycle of a plugin's card window and its binding; `PopupSurface.dfy` - that of
  popups, whose late deletion is not guarded.
- `Damage.dfy` - docked X11 icons, their damage objects and the signals that announce them.
- `ConfigBindings.dfy` - callbacks bound to configuration keys.
- `UniqueId.dfy` - ids of tray items.
- `Collections.dfy` - what several of them share.

Steps are sequentially consistent; queued calls run in order. What D-Bus, X11, the config backend and
the loaded plugins answer are parameters of the steps. Histories (requests made, values written, events
announced) are kept in the states only to state the theorems.

Where the code and its comments disagree, the model follows the code: a brightness request can start a
second call while one is in flight (`Brightness.TwoCallsCanOverlap`) and then be overtaken by an older one
(`Brightness.LastRequestCanBeOverwritten`), and a cancelled StatusNotifier item
can still be added (`TrayRegistry.UnlistedItemIsRegistered`).

## Model

| member | source | states |
|---|---|---|
| `ConfigCache.QuiescentProxyIsExact` | toolGenerate/dconfig2cpp/org_deepin_dde_dock_plugin_sound.hpp:120-207 | in every interleaving of setters, initialisation, queued writes, echoes and outside changes at any time, also before and during initialisation: once nothing is queued, the config thread has been told of all changes, initialisation is over and no setter is under way, every cached property equals the config value, and the last value set through the proxy is the last one a setter wrote to the config (so it is the value, unless an outside change came later) |
| `ConfigCache.OnlySetValuesAreWritten` | toolGenerate/dconfig2cpp/org_deepin_dde_dock_plugin_sound.hpp:120-170 | in every run the proxy writes to a config key only values that a setter of that very property was called with: what nobody sets keeps its stored value |
| `ConfigCache.ValueAtRest` | toolGenerate/dconfig2cpp/org_deepin_dde_dock_plugin_sound.hpp:120-194 | a property outsiders leave alone ends, at rest, in the cache and in the config, with the value of its last set in the run, or with its stored value if there was none |
| `ConfigCache.RunKeepsCount` | toolGenerate/dconfig2cpp/org_deepin_dde_dock_plugin_sound.hpp:120-170 | told by the actions of a run alone: what the last set of a property was, which outside changes its key has received and in which order, and that a key nobody wrote keeps its value |
| `ConfigCache.RunWritesOnly` | toolGenerate/dconfig2cpp/org_deepin_dde_dock_plugin_sound.hpp:120-170 | over every run, whatever is written, queued or about to be written for a property is one of the values it was set to |
| `ConfigCache.NothingIsWritten` | toolGenerate/dconfig2cpp/org_deepin_dde_dock_plugin_sound.hpp:161-165 | a property never set in a run is never written by the proxy |
| `ConfigCache.StepKeepsInv` | toolGenerate/dconfig2cpp/org_deepin_dde_dock_plugin_sound.hpp:120-194 | every atomic step of either thread keeps cache and config in agreement up to what is still queued or half done, and keeps the last completed set in the config, in the queue or waiting for initialisation |
| `ConfigCache.RunKeepsInv` | toolGenerate/dconfig2cpp/org_deepin_dde_dock_plugin_sound.hpp:120-194 | over every run of both threads, cache and config agree up to what is still queued or half done, and the last completed set is not lost |
| `ConfigCache.InitHolds` | toolGenerate/dconfig2cpp/org_deepin_dde_dock_plugin_sound.hpp:208-211 | a freshly constructed proxy, with nothing marked or queued, satisfies the invariant of the interleaved steps |
| `ConfigCache.SetterStepKeeps` | toolGenerate/dconfig2cpp/org_deepin_dde_dock_plugin_sound.hpp:120-148 | each of the three atomic parts of a setter (write, mark, load and post) keeps cache and config in agreement, whatever the other thread is doing |
| `ConfigCache.InitialisationStepKeeps` | toolGenerate/dconfig2cpp/org_deepin_dde_dock_plugin_sound.hpp:153-170 | each part of the initialisation keeps them in agreement, also when a set falls between the test of the mark and the push or pull |
| `ConfigCache.StoreStepKeeps` | toolGenerate/dconfig2cpp/org_deepin_dde_dock_plugin_sound.hpp:156-157 | storing a pushed value in the config keeps cache and config in agreement, although a set may have come since the value was read |
| `ConfigCache.PullStepKeeps` | toolGenerate/dconfig2cpp/org_deepin_dde_dock_plugin_sound.hpp:158-160 | queueing the echo of a property that was not marked keeps them in agreement, and loses no set that came since |
| `ConfigCache.EchoStepKeeps` | toolGenerate/dconfig2cpp/org_deepin_dde_dock_plugin_sound.hpp:174-193 | delivering an echo on the GUI thread keeps them in agreement, and loses no set |
| `ConfigCache.ConfigLoopStepKeeps` | toolGenerate/dconfig2cpp/org_deepin_dde_dock_plugin_sound.hpp:124-128 | a queued write, an outside change and its notice on the config thread keep them in agreement, with an echo or a notice on its way for every change of value |
| `ConfigCache.OutsideChangeKeeps` | toolGenerate/dconfig2cpp/org_deepin_dde_dock_plugin_sound.hpp:153-170 | an outside change before, during or after initialisation keeps them in agreement up to its notice, and loses no set |
| `ConfigCache.NotifyKeeps` | toolGenerate/dconfig2cpp/org_deepin_dde_dock_plugin_sound.hpp:167-173 | the value-changed handler, called for an outside change, makes up for that change with an echo of the present value |
| `ConfigCache.InnerStepsDecrease` | toolGenerate/dconfig2cpp/org_deepin_dde_dock_plugin_sound.hpp:120-194 | every step that is not a new set or an outside change lowers the amount of work left |
| `ConfigCache.NothingLeftToDo` | toolGenerate/dconfig2cpp/org_deepin_dde_dock_plugin_sound.hpp:120-194 | where no step but a new set or an outside change is possible, the proxy is quiescent, or the config could not be created |
| `ConfigCache.ProxyComesToRest` | toolGenerate/dconfig2cpp/org_deepin_dde_dock_plugin_sound.hpp:120-194 | left alone, the proxy comes to rest within a bound and is then quiescent, or the config could not be created |
| `PropertyBits.MarkKeepsOtherBits` | toolGenerate/dconfig2cpp/org_deepin_dde_dock_plugin_sound.hpp:195-207 | marking any of the 32 properties of a word leaves the bits of the others as they are |
| `PropertyBits.MarkAddsOne` | toolGenerate/dconfig2cpp/org_deepin_dde_dock_plugin_sound.hpp:195-207 | marking adds exactly the one property to the marked set |
| `PropertyBits.BitsAreApart` | toolGenerate/dconfig2cpp/org_deepin_dde_dock_plugin_sound.hpp:197-204 | the bits of any two of the 32 properties of a word differ |
| `PropertyBits.NothingMarked` | toolGenerate/dconfig2cpp/org_deepin_dde_dock_plugin_sound.hpp:211 | in the initial word no property is marked |
| `ConfigCache.SetterIsRun` | toolGenerate/dconfig2cpp/org_deepin_dde_dock_plugin_sound.hpp:120-132 | an undisturbed setter call is the run of its three atomic parts, with the state it leaves |
| `ConfigCache.InitialisingIsRun` | toolGenerate/dconfig2cpp/org_deepin_dde_dock_plugin_sound.hpp:156-160 | initialising one property is a run of atomic steps: push the cached value if it is marked, else echo the config value |
| `ConfigCache.InitialisedUpTo` | toolGenerate/dconfig2cpp/org_deepin_dde_dock_plugin_sound.hpp:153-165 | undisturbed initialisation pushes the cached values of just the marked properties, and changes no cached value |
| `ConfigCache.InitialisationIsRun` | toolGenerate/dconfig2cpp/org_deepin_dde_dock_plugin_sound.hpp:153-165 | undisturbed initialisation is a run of the atomic steps of the worker |
| `ConfigCache.LastPropertyThenConnect` | toolGenerate/dconfig2cpp/org_deepin_dde_dock_plugin_sound.hpp:153-170 | undisturbed initialisation, with the connection at its end, is a run of the atomic steps, with the state it leaves |
| `ConfigCache.SettingsProxy.MarkPropertySet` | toolGenerate/dconfig2cpp/org_deepin_dde_dock_plugin_sound.hpp:195-201 | or-ing in the bit of any property below 32 adds that property to the marked set |
| `ConfigCache.SettingsProxy.SetProperty` | toolGenerate/dconfig2cpp/org_deepin_dde_dock_plugin_sound.hpp:120-132 | the setter does its three steps in order, and announces a change exactly if the value differs |
| `ConfigCache.SettingsProxy.DeliverEcho` | toolGenerate/dconfig2cpp/org_deepin_dde_dock_plugin_sound.hpp:176-181 | the queued lambda takes the config value over, and announces a change exactly if it differs |
| `ConfigCache.SettingsProxy.DeliverNotice` | toolGenerate/dconfig2cpp/org_deepin_dde_dock_plugin_sound.hpp:167-193 | the value-changed handler queues an echo of the value the config has by then |
| `ConfigCache.SettingsProxy.RunQueuedWrite` | toolGenerate/dconfig2cpp/org_deepin_dde_dock_plugin_sound.hpp:124-128 | the queued write changes the config, whose value-changed handler echoes exactly if the value differs |
| `ConfigCache.SettingsProxy.InitialiseProperty` | toolGenerate/dconfig2cpp/org_deepin_dde_dock_plugin_sound.hpp:156-160 | a marked property is pushed, another one echoed |
| `ConfigCache.SettingsProxy.Initialize` | toolGenerate/dconfig2cpp/org_deepin_dde_dock_plugin_sound.hpp:153-170 | initialisation is the run of atomic steps that publishes the config, deals with each property in turn and connects |
| `Brightness.NoLostWakeUp` | plugins/dde-dock/brightness/brightnesscontroller.cpp:174-233 | in every reachable state a waiting request has a scheduled handler, a worker that has not run, or one that took a request before and whose finish event is to come; a set pending flag has such a worker |
| `Brightness.StepKeepsInv` | plugins/dde-dock/brightness/brightnesscontroller.cpp:174-233 | every step keeps that a waiting request is going to be looked at, that requests are taken in the order they were made, and that each one taken is sent once or still to be sent |
| `Brightness.RunKeepsInv` | plugins/dde-dock/brightness/brightnesscontroller.cpp:174-233 | over every run a waiting request is going to be looked at, requests are taken in order, and each one taken is sent once or still to be sent |
| `Brightness.RequestsAreTakenInOrder` | plugins/dde-dock/brightness/brightnesscontroller.cpp:213-227 | the requests taken out of the slot are an in-order subsequence of those made, and the last one taken is the last one made unless one is waiting |
| `Brightness.RequestsAreThoseAsked` | plugins/dde-dock/brightness/brightnesscontroller.cpp:174-190 | the requests of these results are just those made in the run, in order |
| `Brightness.LastAskedIsSent` | plugins/dde-dock/brightness/brightnesscontroller.cpp:174-232 | once nothing is outstanding, the last request made in the run has been sent, and nothing has been sent that was not asked for |
| `Brightness.TakenAreSentOnce` | plugins/dde-dock/brightness/brightnesscontroller.cpp:227-229 | after every run each request taken is sent once or still to be sent, and nothing else is sent |
| `Brightness.SendKeepsOrderIff` | plugins/dde-dock/brightness/brightnesscontroller.cpp:227-229 | requests sent in the order they were taken stay so exactly if the next one sent is the oldest not sent yet |
| `Brightness.RunSendsInOrderIff` | plugins/dde-dock/brightness/brightnesscontroller.cpp:213-230 | a run sends in the order of taking exactly if every send in it is the one of the oldest request not sent yet |
| `Brightness.OldestFirstSendsInOrder` | plugins/dde-dock/brightness/brightnesscontroller.cpp:213-230 | in every run whose sends are each the one of the oldest request not sent yet, the requests sent are an in-order subsequence of those made, and once none is waiting or unsent the last one sent is the last one made |
| `Brightness.OneCallSendsInOrder` | plugins/dde-dock/brightness/brightnesscontroller.cpp:213-230 | the same with at most one call in flight throughout |
| `Brightness.LastRequestCanBeOverwritten` | plugins/dde-dock/brightness/brightnesscontroller.cpp:227-229 | two calls in flight can be sent in reverse: nothing is left to do, both flags are down, and the display service was last told the older request |
| `Brightness.TakingKeepsSends` | plugins/dde-dock/brightness/brightnesscontroller.cpp:221-226 | taking a request puts it behind those still to be sent |
| `Brightness.SendingKeepsSends` | plugins/dde-dock/brightness/brightnesscontroller.cpp:228-229 | a send moves one request from those still to be sent to those sent |
| `Brightness.IncreasingIndicesGiveSubsequence` | plugins/dde-dock/brightness/brightnesscontroller.cpp:213-230 | values taken at increasing positions form a subsequence |
| `Brightness.InnerStepsDecrease` | plugins/dde-dock/brightness/brightnesscontroller.cpp:182-232 | every handler, worker, send and finish step lowers a lexicographic measure on waiting, pending and outstanding tokens |
| `Brightness.RunIsBounded` | plugins/dde-dock/brightness/brightnesscontroller.cpp:182-232 | runs without new requests are no longer than that measure, whatever order the scheduler takes |
| `Brightness.ControllerComesToRest` | plugins/dde-dock/brightness/brightnesscontroller.cpp:182-232 | a run without new requests, once nothing is outstanding, ends with both flags down, the last request taken, and every request taken sent |
| `Brightness.StepKeepsOneCallIff` | plugins/dde-dock/brightness/brightnesscontroller.cpp:203-229 | a step keeps "at most one call in flight, and the pending flag says so" exactly if it is not the finish event of a worker that took nothing during a call |
| `Brightness.OneCallThroughoutIff` | plugins/dde-dock/brightness/brightnesscontroller.cpp:203-229 | that holds throughout a run exactly if no worker that took nothing has its finish event delivered during a call of another |
| `Brightness.OneCallFromTheStart` | plugins/dde-dock/brightness/brightnesscontroller.cpp:203-230 | from the start, in every such run the requests are sent in order, and at rest the last one sent is the last one made |
| `Brightness.TwoCallsCanOverlap` | plugins/dde-dock/brightness/brightnesscontroller.cpp:182-232 | two requests can start two workers, and then two requests are taken and neither is sent, contrary to the comment on line 182 |
| `Brightness.Max` | plugins/dde-dock/brightness/brightnesscontroller.cpp:179 | the larger of the two values, so that a request is raised to the minimum and not changed otherwise |
| `Brightness.BrightnessController.SetMonitorBrightness` | plugins/dde-dock/brightness/brightnesscontroller.cpp:174-190 | a request replaces the slot, clamped from below, and schedules a handler unless one is pending |
| `Brightness.BrightnessController.HandleSetBrightnessRequest` | plugins/dde-dock/brightness/brightnesscontroller.cpp:192-232 | the handler starts a worker exactly if a request waits and none is pending |
| `Brightness.BrightnessController.RunWorker` | plugins/dde-dock/brightness/brightnesscontroller.cpp:213-227 | the locked section takes the slot and empties it exactly if a request waits and none is pending |
| `Brightness.BrightnessController.SendTaken` | plugins/dde-dock/brightness/brightnesscontroller.cpp:227-229 | after unlocking, a worker tells the display service the request it took, whatever was requested or taken since |
| `Brightness.BrightnessController.WorkerFinished` | plugins/dde-dock/brightness/brightnesscontroller.cpp:203-211 | the finish event clears the pending flag, whichever worker it belongs to, and schedules a handler if a request waits |
| `TrayRegistry.InitHolds` | plugins/application-tray/abstracttrayprotocol.h:33 | the empty registries and the empty table satisfy the invariant |
| `TrayRegistry.RunKeepsInv` | plugins/application-tray/sniprotocolhandler.cpp:82-142 | over every run: registered and pending items are disjoint, the process-id table covers exactly the registered items, every pending item has a worker, and creations and drops of each item alternate, so that a creation is announced at most once per stay |
| `TrayRegistry.StepKeepsInv` | plugins/application-tray/sniprotocolhandler.cpp:82-142 | every snapshot, completion and poll keeps registered and pending items disjoint, the process-id tables exact, every pending item with a worker, and announced creations and drops alternating |
| `TrayRegistry.SnapshotKeepsInv` | plugins/application-tray/sniprotocolhandler.cpp:84-141 | a snapshot keeps them so: new items become pending with a worker, unlisted ones are dropped or cancelled |
| `TrayRegistry.CompletionKeepsInv` | plugins/application-tray/sniprotocolhandler.cpp:103-115 | a completion keeps them so, also for a worker whose item was cancelled and listed again |
| `TrayRegistry.PollKeepsInv` | plugins/application-tray/xembedprotocolhandler.cpp:117-152 | a poll keeps the table of icons and processes exact |
| `TrayRegistry.ReplayDrops` | plugins/application-tray/sniprotocolhandler.cpp:120-130 | dropping the unlisted items one by one is a sensible continuation of the announced events |
| `TrayRegistry.SnapshotAgreesIff` | plugins/application-tray/sniprotocolhandler.cpp:84-141 | after a snapshot, registered and pending items together are exactly the listed ones, except exactly when it returns early while an item is pending |
| `TrayRegistry.SnapshotSortsTheList` | plugins/application-tray/sniprotocolhandler.cpp:82-142 | a snapshot that does not return early leaves registered what was and is still listed, and pending the rest of the list; each item seen first gets one worker; and just the processes of dropped items lose their entry |
| `TrayRegistry.CompletionTakesOver` | plugins/application-tray/sniprotocolhandler.cpp:103-115 | a completion registers its pending item with the process found and marks the process; it removes one icon of the process if there is one and it was not marked before, and no other icon |
| `TrayRegistry.CompletionDropsOneIcon` | plugins/application-tray/xembedprotocolhandler.cpp:157-171 | with the exclusion holding, that icon is the first of the process |
| `TrayRegistry.LateCompletionDoesNothing` | plugins/application-tray/sniprotocolhandler.cpp:103-108 | the completion of an item that is pending no more changes nothing else |
| `TrayRegistry.PollListsTheIcons` | plugins/application-tray/xembedprotocolhandler.cpp:115-154 | a poll leaves registered exactly the listed icons that were registered or whose process has no item, each with its process, and touches no item |
| `TrayRegistry.PollNotesProcesses` | plugins/application-tray/xembedprotocolhandler.cpp:125-151 | a poll notes exactly the processes of new icons and loses exactly the entries of processes whose icons go |
| `TrayRegistry.WorkersRegisterThePending` | plugins/application-tray/sniprotocolhandler.cpp:103-115 | completions and polls neither lose nor invent an item; once the workers are done all pending items are registered |
| `TrayRegistry.RegistryReachesTheListIff` | plugins/application-tray/sniprotocolhandler.cpp:82-142 | once the workers are done after a snapshot, the registry is exactly the listed items if and only if the snapshot did not return early with an item pending |
| `TrayRegistry.UnlistedItemIsRegistered` | plugins/application-tray/sniprotocolhandler.cpp:86-88 | the early return can lose a cancellation: an item is registered that nobody lists |
| `TrayRegistry.StepKeepsExclusionIff` | plugins/application-tray/sniprotocolhandler.cpp:103-129 | a step keeps "the table says SNI for every registered item's process and for no registered icon's" exactly if no item that goes shares its process with one that stays, and no item takes over a process with two icons |
| `TrayRegistry.ExclusionHoldsIff` | plugins/application-tray/sniprotocolhandler.cpp:103-129 | the exclusion of processes holds throughout a run exactly if no item that goes shares its process with one that stays, and no item takes over a process with two icons |
| `TrayRegistry.SnapshotKeepsExclusionIff` | plugins/application-tray/sniprotocolhandler.cpp:121-130 | a snapshot keeps the exclusion of processes exactly if no item that goes shares its process with one that stays, since dropping an item erases its process |
| `TrayRegistry.CompletionKeepsExclusionIff` | plugins/application-tray/sniprotocolhandler.cpp:107-113 | a completion keeps the exclusion exactly if its process has at most one icon, or is marked SNI already, since it removes one icon only |
| `TrayRegistry.PollKeepsExclusion` | plugins/application-tray/xembedprotocolhandler.cpp:124-151 | polls always keep the exclusion |
| `TrayRegistry.NoProcessIsShownTwice` | plugins/application-tray/xembedprotocolhandler.cpp:115-167 | while no process has two registered items or two registered icons, no process shows through both protocols, in every run of snapshots, completions and polls |
| `TrayRegistry.RegistriesFromTheStart` | plugins/application-tray/xembedprotocolhandler.cpp:115-167 | from the empty registries, after every run the tables are exact, and no process shows through both protocols while none has two items or two icons |
| `TrayRegistry.SecondIconStays` | plugins/application-tray/xembedprotocolhandler.cpp:156-167 | with two icons of one process only one makes way for its item, and the process is shown twice |
| `TrayRegistry.XembedProtocol.OnTrayIconsChanged` | plugins/application-tray/xembedprotocolhandler.cpp:115-154 | the poll adds the new icons of processes without an item, and drops the unlisted icons with their process entries |
| `TrayRegistry.XembedProtocol.AddIcons` | plugins/application-tray/xembedprotocolhandler.cpp:124-136 | the adding loop registers exactly the listed, unregistered icons whose process is not marked SNI, and marks their processes |
| `TrayRegistry.XembedProtocol.DropIcons` | plugins/application-tray/xembedprotocolhandler.cpp:138-151 | the dropping loop removes exactly the unlisted icons, and their processes from the table |
| `TrayRegistry.XembedProtocol.OnRemoveItemByPid` | plugins/application-tray/xembedprotocolhandler.cpp:156-167 | removes the first registered icon of the process and no other, and leaves the table to its caller |
| `TrayRegistry.SniTrayProtocol.RegistedItemChanged` | plugins/application-tray/sniprotocolhandler.cpp:82-142 | the three loops together do what a snapshot does |
| `TrayRegistry.SniTrayProtocol.StartWorkers` | plugins/application-tray/sniprotocolhandler.cpp:91-118 | starts one worker for each listed item that is neither registered nor pending, also if it is listed twice |
| `TrayRegistry.SniTrayProtocol.DropItems` | plugins/application-tray/sniprotocolhandler.cpp:121-130 | drops exactly the unlisted items, in key order, with their process entries |
| `TrayRegistry.SniTrayProtocol.CancelPending` | plugins/application-tray/sniprotocolhandler.cpp:133-141 | cancels exactly the unlisted pending items |
| `TrayRegistry.SniTrayProtocol.Complete` | plugins/application-tray/sniprotocolhandler.cpp:103-115 | a completion registers and announces its item exactly if that is still pending, and takes the process over from XEmbed |
| `TrayRegistry.AllAddedIs` | plugins/application-tray/xembedprotocolhandler.cpp:124-136 | adding icons one at a time, each against the table as changed so far, is adding them all at once |
| `TrayRegistry.AllDroppedIs` | plugins/application-tray/sniprotocolhandler.cpp:121-130 | dropping items one at a time is dropping all unlisted ones at once |
| `TrayRegistry.AllStartedIs` | plugins/application-tray/sniprotocolhandler.cpp:91-118 | starting workers one at a time starts one for each new item |
| `InputShape.InitHolds` | plugins/application-tray/util.h:95 | without records, handlers and windows all invariants hold |
| `InputShape.RunKeepsInv` | plugins/application-tray/util.cpp:285-321 | over every run of leaves, hovers, clicks, resets, docks, destructions, recycled ids and dropped handlers: a recorded size is the last shape applied to the window since its creation, unless its destroy event is still queued |
| `InputShape.RecordsStayExact` | plugins/application-tray/util.cpp:285-321 | after every run from the start, a recorded size is the shape the window has unless a destroy event of a bearer of its id is still queued |
| `InputShape.RecordIsExactIff` | plugins/application-tray/util.cpp:294-303 | after every run, the record of a window that exists is its shape exactly if it was made for that window and not for an earlier bearer of its id |
| `InputShape.RecordsFollowRequests` | plugins/application-tray/xembedprotocolhandler.cpp:70-92 | each action asks for the shape the source names (none for a new container, 1x1 under the pointer, 0x0 on a reset or leave), records exactly that, forgets exactly the windows of a handler that goes or gives up, and changes no other shape |
| `InputShape.ContainersAreShaped` | plugins/application-tray/xembedprotocolhandler.cpp:388-570 | a container really gets the shape asked for by initialisation, hover, click or reset |
| `InputShape.EventsAreForOwners` | plugins/application-tray/xembedprotocolhandler.cpp:70-113 | events of a window that a claiming handler docked or made shape it 0x0 or make the handler give up and forget it; those of other windows do nothing |
| `InputShape.HandlersFollow` | plugins/application-tray/xembedprotocolhandler.cpp:169-252 | what an action makes of one handler: it comes with its dock request, gets its container, gives up with the destruction of a window it owns, and goes with its removal |
| `InputShape.WindowsAndEventsFollow` | plugins/application-tray/xembedprotocolhandler.cpp:195-215 | containers exist from their creation to the removal of their handler, and each destruction is announced |
| `InputShape.StepKeepsKnowing` | plugins/application-tray/util.cpp:285-321 | every step keeps that a record made for the present bearer of an id is its shape, and that the bearer has no shape yet if the record was made for an earlier one |
| `InputShape.StepKeepsInv` | plugins/application-tray/util.cpp:285-321 | every step keeps records exact up to queued destroy events, along with: records belong to containers or owned windows, containers are distinct and exist, and a leave event of a window that is gone is followed by its destroy event |
| `InputShape.ShapingKeepsInv` | plugins/application-tray/util.cpp:285-316 | a shape request, sent or skipped, keeps the records exact |
| `InputShape.InitialisingKeepsInv` | plugins/application-tray/xembedprotocolhandler.cpp:350-388 | creating a container, even under a recycled id, keeps the records exact |
| `InputShape.DroppingKeepsInv` | plugins/application-tray/xembedprotocolhandler.cpp:205-216 | the destruction of a handler keeps the records exact, with its container gone and its window forgotten |
| `InputShape.HandlingLeaveKeepsInv` | plugins/application-tray/xembedprotocolhandler.cpp:70-92 | handling a leave event keeps the records exact, whether or not the window is managed |
| `InputShape.HandlingDestroyKeepsInv` | plugins/application-tray/xembedprotocolhandler.cpp:93-109 | handling a destroy event keeps the records exact: the owner forgets its windows |
| `InputShape.GuardRefinesAlwaysSending` | plugins/application-tray/util.cpp:285-303 | recycling ids late is enough: in every run in which no id is used again while a destroy event of its last bearer is queued, the server ends where it would be if every request had been sent |
| `InputShape.SkippingIsSoundIff` | plugins/application-tray/util.cpp:294-303 | a request makes a difference to sending always exactly when it is skipped on a record made for an earlier bearer of the id of a window that exists |
| `InputShape.GuardRefinesAlwaysSendingIff` | plugins/application-tray/util.cpp:285-303 | at every point of a run from the start the server is where it would be if every request had been sent, exactly if the run never skips a request on a record made for an earlier bearer of the window's id |
| `InputShape.AgreesThroughoutIff` | plugins/application-tray/util.cpp:285-303 | from any state in which the servers agree and records know their bearers, they agree throughout a run exactly if it has no such skip |
| `InputShape.StepAgreesIff` | plugins/application-tray/util.cpp:285-303 | a step keeps the servers in agreement exactly if it is no such skip |
| `InputShape.EarlyReuseDiffers` | plugins/application-tray/util.cpp:294-303 | a run that recycles an id while a leave and a destroy event are queued: the skipped request is one that sending always would have applied |
| `InputShape.LoopStepSpendsAWindow` | plugins/application-tray/xembedprotocolhandler.cpp:70-92 | a leave event that sends a request uses up one window not yet shaped empty, any other one only itself |
| `InputShape.LeaveLoopEnds` | plugins/application-tray/xembedprotocolhandler.cpp:70-109 | in the whole system, with leave and destroy events arriving in any order: if each request sent causes a bounded number of leave events, requests are sent at most once per owned window not recorded empty (and twice per destroy event, if handlers share windows), and a bounded number of events is handled |
| `InputShape.LoopRunSpends` | plugins/application-tray/xembedprotocolhandler.cpp:70-109 | over every such run the requests sent and the windows left unshaped are no more than the windows that were unshaped, and every event handled was queued or arrived |
| `InputShape.LoopActionSpends` | plugins/application-tray/xembedprotocolhandler.cpp:70-109 | every such step spends a window for a request sent, and an event for an event handled |
| `InputShape.InvalidatingReopens` | plugins/application-tray/xembedprotocolhandler.cpp:238-251 | giving up a destroyed window leaves no more owned windows unshaped than before, unless handlers share windows |
| `InputShape.LeaveIsLoopStep` | plugins/application-tray/xembedprotocolhandler.cpp:70-92 | handling a leave event in the whole system is one step of the loop |
| `InputShape.BurstLoopEnds` | plugins/application-tray/xembedprotocolhandler.cpp:70-92 | with the bursts of leave events that requests cause taken one by one, requests are sent at most once per owned window not shaped empty, and the number of events handled is bounded |
| `InputShape.Util.SetX11WindowInputShape` | plugins/application-tray/util.cpp:285-316 | sends a request exactly if the record differs, and records it |
| `InputShape.Util.RemoveX11WindowInputShapeRecord` | plugins/application-tray/util.cpp:318-321 | forgets the one window |
| `InputShape.Util.HandleLeaves` | plugins/application-tray/xembedprotocolhandler.cpp:70-92 | the event loop ends for any burst of leave events per request, with every owned window that had an event shaped empty and other records untouched |
| `InputShape.XembedProtocolHandler.Invalidate` | plugins/application-tray/xembedprotocolhandler.cpp:238-251 | gives up ownership once and forgets both windows |
| `InputShape.XembedProtocolHandler.Destroy` | plugins/application-tray/xembedprotocolhandler.cpp:205-216 | destroys the container and forgets both windows |
| `InputShape.XembedProtocol.FindOwner` | plugins/application-tray/xembedprotocolhandler.cpp:79-86 | the search through the registry finds an owner exactly if some handler owns the window, whatever order the registry lists them in |
| `InputShape.XembedProtocol.OnLeaveNotify` | plugins/application-tray/xembedprotocolhandler.cpp:70-92 | a leave event is consumed, and the window shaped empty, exactly if some handler owns the window |
| `InputShape.XembedProtocol.OnDestroyNotify` | plugins/application-tray/xembedprotocolhandler.cpp:93-109 | the owner of a destroyed window gives up its windows and forgets them; without an owner nothing changes |
| `InputShape.XembedProtocol.NativeEventFilter` | plugins/application-tray/xembedprotocolhandler.cpp:59-113 | handles an event as the step of the system does, and consumes exactly the leave events of owned windows |
| `MenuMirror.InitHolds` | plugins/libdbusmenuqt/dbusmenuimporter.cpp:75-83 | an importer with an empty top menu and an empty map satisfies the invariant |
| `MenuMirror.MirrorIsExact` | plugins/libdbusmenuqt/dbusmenuimporter.cpp:399-453 | after every run of deletions and of replies that repeat no id and list only what their menu can hold, with no deletion pending: every menu shows exactly what the last reply about it listed, in its order, and the ids in the global map are those of the actions that can be reached from the top menu |
| `MenuMirror.TopMenuFollowsReplies` | plugins/libdbusmenuqt/dbusmenuimporter.cpp:373-456 | told by the replies of a run alone: the top menu lists the ids of the last valid reply about item 0, in order |
| `MenuMirror.ReplyReachesItsMenu` | plugins/libdbusmenuqt/dbusmenuimporter.cpp:373-456 | a valid reply makes the menu of its item list the ids of its children in order; each child keeps its action or gets a new one, with a submenu if it wants one; and no other menu changes |
| `MenuMirror.MenuForIdIsIff` | plugins/libdbusmenuqt/dbusmenuimporter.cpp:247-257 | a reply is about the top menu exactly for item 0, and about a submenu exactly if an action with that id that is not about to be deleted has it |
| `MenuMirror.StrayReplyDoesNothing` | plugins/libdbusmenuqt/dbusmenuimporter.cpp:378-397 | a reply that is invalid, or about an item that is gone or has no menu, changes nothing |
| `MenuMirror.MirrorStaysInOrderIff` | plugins/libdbusmenuqt/dbusmenuimporter.cpp:373-456 | for any sequence of replies and due deletions: the mirror is in order at every point exactly if every reply repeats no id and lists only what its menu can hold when it comes (an id that is there already was created in that menu, and one that is not belongs to no action any more) |
| `MenuMirror.ReplyKeepsInvIff` | plugins/libdbusmenuqt/dbusmenuimporter.cpp:373-456 | a reply keeps the mirror in order exactly if it repeats no id and its menu can hold every child it lists |
| `MenuMirror.InsertingKeepsOrderIff` | plugins/libdbusmenuqt/dbusmenuimporter.cpp:420-453 | inserting a child keeps tree, lists, ids and map in order exactly if the menu can hold it |
| `MenuMirror.ReplyBreaks` | plugins/libdbusmenuqt/dbusmenuimporter.cpp:420-453 | one child that the menu cannot hold leaves an action listed outside its menu or two actions with one id, whatever else the reply lists |
| `MenuMirror.MovedItemIsLost` | plugins/libdbusmenuqt/dbusmenuimporter.cpp:399-453 | an item that moves into a submenu is listed by both menus, and vanishes from both when the old one is refreshed |
| `MenuMirror.MenuShowsWanted` | plugins/libdbusmenuqt/dbusmenuimporter.cpp:419-453 | with no deletion pending a menu shows exactly what the last reply about it listed, in its order, and nothing if there was none |
| `MenuMirror.MappedIffReachable` | plugins/libdbusmenuqt/dbusmenuimporter.cpp:421-430 | with no deletion pending an id is in the map exactly if an action with that id can be reached from the top menu |
| `MenuMirror.PathIsMapped` | plugins/libdbusmenuqt/dbusmenuimporter.cpp:421-430 | every way down from the top leads to the action the map holds for its id |
| `MenuMirror.StepKeepsInv` | plugins/libdbusmenuqt/dbusmenuimporter.cpp:373-456 | every reply and every deletion keeps the tree, the lists, the uniqueness of ids, the exactness of the map (but for scheduled deletions) and the mirrored ids |
| `MenuMirror.RunKeepsInv` | plugins/libdbusmenuqt/dbusmenuimporter.cpp:373-456 | over every run of replies and deletions the tree, the lists, the map and the mirrored ids stay in order |
| `MenuMirror.ReplyKeepsInv` | plugins/libdbusmenuqt/dbusmenuimporter.cpp:373-456 | every reply keeps the tree, the lists, the map and the mirrored ids of all menus in order |
| `MenuMirror.ReplyIsShown` | plugins/libdbusmenuqt/dbusmenuimporter.cpp:399-453 | a reply makes the live ids of its menu exactly the ids it lists, in its order, whatever was there before |
| `MenuMirror.RemovingLeavesMentioned` | plugins/libdbusmenuqt/dbusmenuimporter.cpp:405-417 | after the first loop only ids that the reply mentions are live |
| `MenuMirror.InsertingAll` | plugins/libdbusmenuqt/dbusmenuimporter.cpp:420-453 | the second loop lists the mentioned ids, in order, behind those that are not mentioned |
| `MenuMirror.MovingMirrors` | plugins/libdbusmenuqt/dbusmenuimporter.cpp:442-452 | an item that is there already moves to the end of its menu |
| `MenuMirror.CreatingAppends` | plugins/libdbusmenuqt/dbusmenuimporter.cpp:423-441 | a new item is listed at the end of its menu |
| `MenuMirror.CreatingKeepsOrder` | plugins/libdbusmenuqt/dbusmenuimporter.cpp:423-441 | creating an action, with or without a submenu, keeps tree, lists, ids and map in order |
| `MenuMirror.DeleteKeepsInv` | plugins/libdbusmenuqt/dbusmenuimporter.cpp:405-417 | the deferred deletion of an action and its submenu keeps the invariant and leaves fewer deletions pending |
| `MenuMirror.DeletingKeepsMapIff` | plugins/libdbusmenuqt/dbusmenuimporter.cpp:428-430 | the `destroyed` connections keep the map exact precisely if no live survivor shares an id with what is destroyed |
| `MenuMirror.DeletionDropsSubmenus` | plugins/libdbusmenuqt/dbusmenuimporter.cpp:411-415 | deleting an action drops everything in the menus below it, from the tree and from the map |
| `MenuMirror.DeletionTakesTheTree` | plugins/libdbusmenuqt/dbusmenuimporter.cpp:411-416 | a deletion takes the action and what lies below it, and nothing else |
| `MenuMirror.DeletionsDrain` | plugins/libdbusmenuqt/dbusmenuimporter.cpp:411-415 | the pending deletions can always be carried out, until none is left |
| `MenuMirror.EarlyReuseShowsTwice` | plugins/libdbusmenuqt/dbusmenuimporter.cpp:405-453 | an id listed again before its old action is deleted loses its map entry, and the next reply shows the item twice |
| `MenuMirror.DBusMenuImporter.SlotGetLayoutFinished` | plugins/libdbusmenuqt/dbusmenuimporter.cpp:373-456 | an invalid reply or one about a menu that is gone changes nothing; any other one removes the outdated actions and inserts the children |
| `MenuMirror.DBusMenuImporter.RemoveOutdated` | plugins/libdbusmenuqt/dbusmenuimporter.cpp:405-417 | the first loop dooms exactly the listed actions that are not mentioned, and takes their ids out of the map |
| `MenuMirror.DBusMenuImporter.InsertAll` | plugins/libdbusmenuqt/dbusmenuimporter.cpp:420-453 | the second loop inserts or moves the children one by one |
| `MenuMirror.DBusMenuImporter.InsertOrMove` | plugins/libdbusmenuqt/dbusmenuimporter.cpp:421-452 | an id in the map moves its action to the end, another one gets a new action |
| `MenuMirror.DBusMenuImporter.CreateAction` | plugins/libdbusmenuqt/dbusmenuimporter.cpp:423-441 | the new action goes into the map and the menu, with an empty submenu if it has one |
| `MenuMirror.DBusMenuImporter.OnDestroyed` | plugins/libdbusmenuqt/dbusmenuimporter.cpp:428-430 | every destroyed action's id leaves the map |
| `MenuMirror.DBusMenuImporter.DeleteNow` | plugins/libdbusmenuqt/dbusmenuimporter.cpp:411-415 | the deferred deletion removes the action and everything below it |
| `Mnemonic.SwapMnemonicChar` | plugins/libdbusmenuqt/utils.cpp:12-50 | the loop computes the recursive swap |
| `Mnemonic.VisibleTextIsKeptIff` | plugins/libdbusmenuqt/utils.cpp:12-50 | the text a reader sees is kept for every label exactly when the two markers differ |
| `Mnemonic.VisibleTextIsKept` | plugins/libdbusmenuqt/utils.cpp:12-50 | with different markers the text a reader sees is kept for every label, from any state of the loop |
| `Mnemonic.MarkerBeforePairs` | plugins/libdbusmenuqt/utils.cpp:28-42 | behind the mnemonic the target marker occurs in pairs only, so a marker put before it does not change the text |
| `Mnemonic.MarkIsKeptIff` | plugins/libdbusmenuqt/utils.cpp:28-36 | the marked character stays the marked one exactly when it is not itself the target marker |
| `Mnemonic.MarkMovesOn` | plugins/libdbusmenuqt/utils.cpp:28-41 | for every label, the output marks the character marked in the label or, where that is the target marker, the next displayed one that is not |
| `Mnemonic.MarkerMovesOn` | plugins/libdbusmenuqt/utils.cpp:33-41 | a marker before the output behind the mnemonic marks the first displayed character that is no target marker |
| `Mnemonic.NothingMarkedBehindTheMnemonic` | plugins/libdbusmenuqt/utils.cpp:33-36 | the output behind the mnemonic marks no character |
| `Mnemonic.AtMostOneMark` | plugins/libdbusmenuqt/utils.cpp:28-36 | however many single markers a label holds, at most one character of the whole output is marked |
| `Mnemonic.MarksBehindTheMnemonic` | plugins/libdbusmenuqt/utils.cpp:28-42 | behind the mnemonic nothing is marked, and a marker put before that marks one character at most |
| `Mnemonic.RoundTripIff` | plugins/libdbusmenuqt/utils.cpp:12-50 | swapping forth and back gives a label back exactly when every single marker marks a character other than the two markers, and at most one does |
| `Mnemonic.MarkedRoundTrip` | plugins/libdbusmenuqt/utils.cpp:24-37 | a label that begins with a single marker comes back exactly if it marks a character other than the two markers and no other one is marked |
| `Shortcut.RoundTripIff` | plugins/libdbusmenuqt/dbusmenushortcut_p.cpp:44-71 | converting a key-sequence text to token lists and back is the identity exactly when it contains none of "Super", "Control", "plus", "minus" |
| `Shortcut.ThereAndBack` | plugins/libdbusmenuqt/dbusmenushortcut_p.cpp:44-71 | for every text the trip is the same as translating the bus's names in the text as it stands |
| `Shortcut.TokenThereAndBack` | plugins/libdbusmenuqt/dbusmenushortcut_p.cpp:49-57 | for one chord, including keys that are plus signs themselves, the trip is the same as translating the bus's names in its text |
| `Shortcut.KeyThereAndBack` | plugins/libdbusmenuqt/dbusmenushortcut_p.cpp:17-42 | for one key name the trip is the same as translating it back: the words made on the way there do not run together with anything |
| `Shortcut.DoublePlusThereAndBack` | plugins/libdbusmenuqt/dbusmenushortcut_p.cpp:50-53 | spelling out the second of two plus signs makes no difference in the end |
| `Shortcut.Commute` | plugins/libdbusmenuqt/dbusmenushortcut_p.cpp:36-41 | rewritings with words that cannot overlap can be done in either order |
| `Shortcut.Absorb` | plugins/libdbusmenuqt/dbusmenushortcut_p.cpp:36-41 | rewriting there first is absorbed by rewriting back |
| `Shortcut.FromBusThroughJoin` | plugins/libdbusmenuqt/dbusmenushortcut_p.cpp:64-69 | translating the parts and joining them is translating the joined text |
| `Shortcut.JoinOfSplit` | plugins/libdbusmenuqt/dbusmenushortcut_p.cpp:48-54 | joining what was split gives the text back |
| `Shortcut.ReplaceShrinks` | plugins/libdbusmenuqt/dbusmenushortcut_p.cpp:36-41 | replacing by a shorter word changes a text exactly if it contains the word |
| `Shortcut.TableRewrites` | plugins/libdbusmenuqt/dbusmenushortcut_p.cpp:27-34 | the table read in one direction is the translation to the bus, in the other one the translation back |
| `Shortcut.ProcessKeyTokens` | plugins/libdbusmenuqt/dbusmenushortcut_p.cpp:17-42 | rewrites every token in place by all rows of the table, in its order |
| `Shortcut.ReplaceInStrings` | plugins/libdbusmenuqt/dbusmenushortcut_p.cpp:40 | replaces in every token |
| `Shortcut.SequenceReachesBus` | plugins/libdbusmenuqt/dbusmenushortcut_p.cpp:44-59 | the text of several chords becomes the list of their key lists, each key translated |
| `Shortcut.ChordReachesBus` | plugins/libdbusmenuqt/dbusmenushortcut_p.cpp:49-56 | the keys of a chord, written with plus signs between them, reach the bus one by one, each translated, and a plus key at the end is told from the signs between |
| `Shortcut.ChordReachesBusIff` | plugins/libdbusmenuqt/dbusmenushortcut_p.cpp:49-56 | of the chords the toolkit writes, exactly the plus key alone does not reach the bus key by key |
| `Shortcut.DoublePlusIsPlusKey` | plugins/libdbusmenuqt/dbusmenushortcut_p.cpp:50-53 | rewriting the double plus spells out the plus key at the end of a chord and nothing else |
| `Shortcut.LonePlusIsLost` | plugins/libdbusmenuqt/dbusmenushortcut_p.cpp:53-54 | the plus key alone is taken for a separator and reaches the bus as two empty names |
| `Shortcut.SplitOfJoin` | plugins/libdbusmenuqt/dbusmenushortcut_p.cpp:48-54 | split undoes join for parts that do not hold the separator |
| `Shortcut.ToBusKeepsIff` | plugins/libdbusmenuqt/dbusmenushortcut_p.cpp:27-34 | a key name goes to the bus as it is exactly when it holds none of the four names of the toolkit |
| `Shortcut.ToBusNames` | plugins/libdbusmenuqt/dbusmenushortcut_p.cpp:27-34 | those names become Super, Control, plus and minus |
| `Shortcut.TextIsTranslated` | plugins/libdbusmenuqt/dbusmenushortcut_p.cpp:61-71 | for every shortcut, the text is the translation of its names as they stand, joined by plus signs and commas |
| `Shortcut.FromKeySequence` | plugins/libdbusmenuqt/dbusmenushortcut_p.cpp:44-59 | the loop over chords computes the shortcut |
| `Shortcut.ToKeySequence` | plugins/libdbusmenuqt/dbusmenushortcut_p.cpp:61-71 | the loop over token lists computes the text |
| `LayoutCodec.ReadsExactly` | plugins/libdbusmenuqt/dbusmenutypes_p.cpp:51-81 | reading yields an item and leaves the rest exactly when the message is that item's encoding followed by the rest, for every tree of any depth and width |
| `LayoutCodec.DecodeOfEncode` | plugins/libdbusmenuqt/dbusmenutypes_p.cpp:51-81 | what was written is read back, consuming exactly its tokens, behind the children the target had already |
| `LayoutCodec.EncodeOfDecode` | plugins/libdbusmenuqt/dbusmenutypes_p.cpp:64-81 | whatever is read is the encoding of an item, with nothing skipped |
| `LayoutCodec.TargetMustBeFresh` | plugins/libdbusmenuqt/dbusmenutypes_p.cpp:70-77 | reading gives back the item written exactly when its target had no children |
| `LayoutCodec.EncodingHasSignature` | plugins/libdbusmenuqt/dbusmenutypes_p.cpp:51-62 | what is written for any tree is one value of the D-Bus signature (ia{sv}av) |
| `LayoutCodec.WrittenInPreorder` | plugins/libdbusmenuqt/dbusmenutypes_p.cpp:51-62 | the ids are written parents first and children in their order |
| `LayoutCodec.Write` | plugins/libdbusmenuqt/dbusmenutypes_p.cpp:51-62 | the writing operator appends exactly the encoding |
| `LayoutCodec.Read` | plugins/libdbusmenuqt/dbusmenutypes_p.cpp:64-81 | the reading operator reads exactly what decoding does, and fails exactly when it fails |
| `LayoutCodec.ReadHead` | plugins/libdbusmenuqt/dbusmenutypes_p.cpp:66-68 | reads structure, id, properties and the start of the array |
| `LayoutCodec.ReadChild` | plugins/libdbusmenuqt/dbusmenutypes_p.cpp:70-75 | reads a child out of its variant into a fresh item |
| `LayoutCodec.Argument.AtEnd` | plugins/libdbusmenuqt/dbusmenutypes_p.cpp:69 | the array ends at its closing token |
| `CardSurface.InitHolds` | src/loader/widgetplugin.h:74-76 | without a card, out of fashion mode and with no item added, the invariant holds |
| `CardSurface.RunKeepsInv` | src/loader/widgetplugin.cpp:428-548 | over every run that does not lose the card flag: the card window is visible just while it is bound, and then fashion mode is on and the item added; no binding refers to an object scheduled for deletion; every object has one geometry connection and one order message |
| `CardSurface.StepKeepsInvIff` | src/loader/widgetplugin.cpp:428-454 | a step keeps that exactly if it is not one that switches fashion mode off without the card flag while the card is visible |
| `CardSurface.CardStaysInOrderIff` | src/loader/widgetplugin.cpp:428-454 | a visible card is bound and wanted at every point of a run exactly if the run never switches fashion mode off without the card flag while the card is visible |
| `CardSurface.LostFlagLeavesCard` | src/loader/widgetplugin.cpp:436-438 | from the start: a card that is shown and then loses its flag stays visible when fashion mode is switched off |
| `CardSurface.VisibleCardIsWanted` | src/loader/widgetplugin.cpp:428-548 | from the start, as long as no step loses the card: a window is visible just while it is bound, and then it is the card, fashion mode is on, the item is added, and its object is not scheduled for deletion |
| `CardSurface.ModeStepKeepsInvIff` | src/loader/widgetplugin.cpp:428-454 | a change of mode keeps a visible card bound and wanted exactly if it does not go off without the card flag while the card is visible |
| `CardSurface.ItemStepKeepsInv` | src/loader/widgetplugin.cpp:115-128 | adding and removing the item keep a visible card bound and wanted |
| `CardSurface.HidingTheCard` | src/loader/widgetplugin.cpp:440-447 | hiding the card leaves nothing visible, so that mode and item no longer matter |
| `CardSurface.HiddenKeepsInv` | src/tray-wayland-integration/plugin.cpp:164-169 | hiding a window drops its binding at once and schedules its object for deletion |
| `CardSurface.BindingKeepsInv` | src/loader/widgetplugin.cpp:502-548 | binding and showing the card: a bound window keeps its object, another one gets a new one, connected once |
| `CardSurface.CreatedKeepsInv` | src/loader/widgetplugin.cpp:463-500 | creating the card, or making it anew when its window is gone, keeps a visible card bound and wanted |
| `CardSurface.WindowStepKeepsInv` | src/loader/cardpluginitem.h:48 | windows may appear, and once hidden be destroyed, at any time |
| `CardSurface.PluginStepKeepsInv` | src/tray-wayland-integration/plugin.cpp:158-169 | queued order messages and deferred deletions change no binding |
| `CardSurface.MenuBindsNothing` | src/loader/cardpluginitem.cpp:323-326 | a menu opened on the card finds its object and never makes one |
| `CardSurface.WantedCardIsShown` | src/loader/widgetplugin.cpp:463-500 | a wanted card is visible and bound: to the object it had if it was visible, else to a new one with its connection made and its order on the way |
| `CardSurface.AskedCardIsShown` | src/loader/widgetplugin.cpp:428-500 | whether the item is added in fashion mode or the mode comes on with the item added, the card is shown and bound exactly if the plugin has cards and there is a window for it |
| `CardSurface.NothingIsShownUnasked` | src/loader/widgetplugin.cpp:428-454 | without both conditions and the card flag nothing is shown, bound or made |
| `CardSurface.UnwantedCardIsHidden` | src/loader/widgetplugin.cpp:227-234 | removing the item, or switching the mode off with the card flag, leaves nothing visible or bound, and the card keeps its window |
| `CardSurface.ConditionsFollowActions` | src/loader/widgetplugin.cpp:115-128 | told by the actions of a run alone: whether the item is added and whether fashion mode is on |
| `CardSurface.HidingIsLocal` | src/tray-wayland-integration/plugin.cpp:164-169 | hiding a window unbinds it and dooms its object, and touches no other |
| `CardSurface.OtherStepsAreLocal` | src/tray-wayland-integration/plugin.cpp:137-169 | an order message is sent once, a deletion takes its object only, a destroyed window takes its objects, and none of these shows or binds anything |
| `CardSurface.LateDeletionKeepsBindings` | src/tray-wayland-integration/plugin.cpp:137-144 | the late deletion of an object never unbinds a newer one |
| `CardSurface.UnguardedDeletionIsSafeIff` | src/tray-wayland-integration/plugin.cpp:139-144 | what the guard buys: without it the late deletion of an object has the same effect exactly when its window has not been bound again |
| `CardSurface.ReboundBeforeDeletion` | src/tray-wayland-integration/plugin.cpp:164-169 | a window can be bound again before its old object is deleted: removing and adding the item is enough |
| `CardSurface.Surfaces.Get` | src/tray-wayland-integration/plugin.cpp:152-173 | finds the bound object or makes and binds a new one |
| `CardSurface.Surfaces.RemoveFromPluginMap` | src/tray-wayland-integration/plugin.cpp:139-144 | drops a binding only if it still refers to the given object |
| `CardSurface.Surfaces.OnHidden` | src/tray-wayland-integration/plugin.cpp:164-169 | the handlers of all the window's objects, old and new, run in any order with the same result |
| `CardSurface.Surfaces.Hide` | src/loader/cardpluginitem.cpp:105-112 | hiding a visible window runs the handlers of all its objects, hiding a hidden one does nothing |
| `CardSurface.Surfaces.DeletePlugin` | src/tray-wayland-integration/plugin.cpp:158-160 | the `destroyed` handler runs after the object is gone |
| `CardSurface.CardPluginItem.Init` | src/loader/cardpluginitem.cpp:79-96 | the card takes the window the plugin answers with, or fails |
| `CardSurface.CardPluginItem.Show` | src/loader/cardpluginitem.cpp:98-103 | shows the window if there is one |
| `CardSurface.CardPluginItem.Hide` | src/loader/cardpluginitem.cpp:105-112 | hides the window if there is one |
| `CardSurface.WidgetPlugin.BindCardPluginSurface` | src/loader/widgetplugin.cpp:502-548 | succeeds exactly with a card window; connects and queues the order only for a newly bound object |
| `CardSurface.WidgetPlugin.CreateCardItemIfNeeded` | src/loader/widgetplugin.cpp:463-500 | keeps a card with a window, replaces one without, and shows it |
| `CardSurface.WidgetPlugin.SetFashionMode` | src/loader/widgetplugin.cpp:428-454 | does nothing if the mode is the same, hides the card when it goes off, shows it when it comes on and the item is added |
| `CardSurface.WidgetPlugin.ItemAdded` | src/loader/widgetplugin.cpp:115-128 | shows the card in fashion mode |
| `CardSurface.WidgetPlugin.ItemRemoved` | src/loader/widgetplugin.cpp:227-234 | hides the card |
| `PopupSurface.InitHolds` | src/tray-wayland-integration/plugin.cpp:358 | without popups the invariant holds |
| `PopupSurface.PopupsStayBoundIff` | src/tray-wayland-integration/plugin.cpp:358-394 | windows and live popups stay bound to each other throughout a run exactly if it never deletes an old popup after its window has been bound again |
| `PopupSurface.StepKeepsInvIff` | src/tray-wayland-integration/plugin.cpp:358-394 | a step keeps windows and live popups bound to each other exactly if it is not such a deletion, whose handler does not look which popup is bound |
| `PopupSurface.HidingKeepsInv` | src/tray-wayland-integration/plugin.cpp:375-380 | hiding a window unbinds it and schedules its popups for deletion |
| `PopupSurface.RemovingKeepsInv` | src/tray-wayland-integration/plugin.cpp:386-394 | removing a popup closes its window and leaves it unbound |
| `PopupSurface.RemovedIsGone` | src/tray-wayland-integration/plugin.cpp:386-394 | removing closes and unbinds the window and deletes its popup at once, and leaves other windows and their popups alone |
| `PopupSurface.HiddenIsUnbound` | src/tray-wayland-integration/plugin.cpp:375-380 | hiding unbinds the window and leaves its popups to be deleted, and others alone |
| `PopupSurface.GotIsTheLiveOne` | src/tray-wayland-integration/plugin.cpp:365-384 | asking finds the live popup of the window and makes one exactly if there is none |
| `PopupSurface.OtherStepsAreLocal` | src/tray-wayland-integration/plugin.cpp:371-373 | a deletion takes its popup and the binding of its window, and showing binds nothing |
| `PopupSurface.NewerPopupIsLost` | src/tray-wayland-integration/plugin.cpp:371-373 | whenever the popup of a visible window is hidden and got again before the old one is deleted, the window ends unbound and the next caller makes a second live popup |
| `PopupSurface.TwoLivePopups` | src/tray-wayland-integration/plugin.cpp:371-373 | a run from the start that ends with two live popups of one window |
| `PopupSurface.PopupMap.Get` | src/tray-wayland-integration/plugin.cpp:365-384 | finds the popup of the window or makes and binds a new one |
| `PopupSurface.PopupMap.OnHidden` | src/tray-wayland-integration/plugin.cpp:375-380 | the handlers of all the window's popups, old and new, run in any order with the same result |
| `PopupSurface.PopupMap.Hide` | src/tray-wayland-integration/plugin.cpp:375-380 | hiding a visible window runs them, hiding a hidden one does nothing |
| `PopupSurface.PopupMap.Remove` | src/tray-wayland-integration/plugin.cpp:386-394 | unbinds, closes the window, then deletes the popup at once |
| `PopupSurface.PopupMap.DeletePopup` | src/tray-wayland-integration/plugin.cpp:371-373 | the `destroyed` handler unbinds the window, whichever popup it is bound to |
| `Damage.InitHolds` | plugins/application-tray/traymanager1.h:89-90 | without icons and watches the invariant holds |
| `Damage.StepKeepsInv` | plugins/application-tray/fdoselectionmanager.cpp:73-214 | every step keeps: watched windows are the registered icons, every damage object ever created is watched once or destroyed once and not both, the signals tell exactly the registered icons, and readiness is announced once |
| `Damage.RunKeepsInv` | plugins/application-tray/fdoselectionmanager.cpp:73-214 | over every run watched windows are the registered icons, damage objects are conserved, and the signals tell the registered icons |
| `Damage.ListenersKnowTheIcons` | plugins/application-tray/traymanager1.cpp:32-58 | after every run the icons a listener counts are the registered and the watched ones, and the comings and goings of each window alternate |
| `Damage.IconsFollowTheirActions` | plugins/application-tray/fdoselectionmanager.cpp:73-214 | told by the actions about a window alone: whether it is docked, with which contents, and whether its changes are wanted; each change of contents is announced once, and readiness exactly if ownership was claimed |
| `Damage.StepFollowsFate` | plugins/application-tray/traymanager1.cpp:32-130 | the same for one action |
| `Damage.CheckedIcon` | plugins/application-tray/fdoselectionmanager.cpp:73-86 | checking removes an icon exactly if it is invalid |
| `Damage.SensibleSignalsAlternate` | plugins/application-tray/traymanager1.cpp:32-58 | signals that make sense one by one alternate for every window and tell whether it is there |
| `Damage.DamageObjectsAddUp` | plugins/application-tray/fdoselectionmanager.cpp:88-123 | nothing leaks: objects created are as many as objects destroyed plus icons |
| `Damage.WatchingConserves` | plugins/application-tray/fdoselectionmanager.cpp:95-122 | a watch that succeeds accounts for its damage object: it is watched once and never was destroyed |
| `Damage.FailingConserves` | plugins/application-tray/fdoselectionmanager.cpp:105-118 | a watch that fails, at either check, destroys its damage object again |
| `Damage.UndockingConserves` | plugins/application-tray/fdoselectionmanager.cpp:206-210 | undocking moves the object from the watched to the destroyed |
| `Damage.UndockedKeepsInv` | plugins/application-tray/fdoselectionmanager.cpp:193-214 | undocking a window, docked or not, keeps the invariant |
| `Damage.CheckedKeepsInv` | plugins/application-tray/fdoselectionmanager.cpp:73-86 | checking for invalid windows keeps the invariant, whatever order the icons are listed in |
| `Damage.CheckedIcons` | plugins/application-tray/fdoselectionmanager.cpp:73-86 | checking leaves exactly the valid icons |
| `Damage.DockedKeepsInv` | plugins/application-tray/fdoselectionmanager.cpp:176-191 | docking keeps the invariant, whatever becomes of the watch |
| `Damage.DockingDocks` | plugins/application-tray/fdoselectionmanager.cpp:176-191 | a dock request leaves the icons that are still valid, and the window itself if it could be watched |
| `Damage.TrayManager1.RegisterIcon` | plugins/application-tray/traymanager1.cpp:32-45 | registers and announces an icon that was not there |
| `Damage.TrayManager1.UnregisterIcon` | plugins/application-tray/traymanager1.cpp:47-58 | removes and announces an icon that was there |
| `Damage.TrayManager1.NotifyIconChanged` | plugins/application-tray/traymanager1.cpp:60-86 | announces a change exactly if the icon is there, wants it, and its contents could be read and differ |
| `Damage.TrayManager1.TrayIcons` | plugins/application-tray/traymanager1.cpp:88-96 | lists every icon once |
| `Damage.TrayManager1.NotifyInited` | plugins/application-tray/traymanager1.cpp:103-111 | announces readiness once |
| `Damage.TrayManager1.EnableNotification` | plugins/application-tray/traymanager1.cpp:127-136 | changes the wish of a registered icon only |
| `Damage.FdoSelectionManager.OnClaimedOwnership` | plugins/application-tray/fdoselectionmanager.cpp:216-223 | announces readiness |
| `Damage.FdoSelectionManager.AddDamageWatch` | plugins/application-tray/fdoselectionmanager.cpp:88-123 | watches the window, or destroys the object again if it is gone at either check |
| `Damage.FdoSelectionManager.Undock` | plugins/application-tray/fdoselectionmanager.cpp:193-214 | unregisters, then destroys the damage object, exactly if the icon is registered |
| `Damage.FdoSelectionManager.CheckValid` | plugins/application-tray/fdoselectionmanager.cpp:73-86 | the loop undocks the invalid ones among the icons listed before it |
| `Damage.FdoSelectionManager.Dock` | plugins/application-tray/fdoselectionmanager.cpp:176-191 | checks, and docks a window that is not registered if it can be watched |
| `Damage.FdoSelectionManager.OnDestroyNotify` | plugins/application-tray/fdoselectionmanager.cpp:150-154 | undocks a registered window |
| `Damage.FdoSelectionManager.OnDamageNotify` | plugins/application-tray/fdoselectionmanager.cpp:155-161 | subtracts only damage of a watched window, and passes the change on |
| `ConfigBindings.InitHolds` | plugins/dde-dock/common/dconfig_helper.h:79-80 | without configurations and callbacks the invariant holds |
| `ConfigBindings.DispatchIsExactInEveryRun` | plugins/dde-dock/common/dconfig_helper.cpp:45-59 | after every run a change of a key calls exactly the objects bound to it in that configuration and not unbound since, each with the callback it was last bound with, for whatever key that was |
| `ConfigBindings.DispatchIsExact` | plugins/dde-dock/common/dconfig_helper.cpp:45-59 | in every state that satisfies the invariant a change of a key calls exactly the objects bound to it in that configuration, each with its last callback |
| `ConfigBindings.StepKeepsInv` | plugins/dde-dock/common/dconfig_helper.cpp:64-144 | every step keeps: the table lists just the bindings asked for and not taken back, an object has a callback exactly while some configuration lists a key for it, no key list is empty or names a key twice |
| `ConfigBindings.RunKeepsInv` | plugins/dde-dock/common/dconfig_helper.cpp:64-144 | over every run the table lists just the bindings asked for and not taken back, and callbacks exist exactly for bound objects |
| `ConfigBindings.CreateKeepsInv` | plugins/dde-dock/common/dconfig_helper.cpp:38-39 | a new configuration starts without bindings and leaves the others alone |
| `ConfigBindings.BindKeepsInv` | plugins/dde-dock/common/dconfig_helper.cpp:80-98 | binding adds exactly the one binding and replaces the callback, also if the key is bound already, and nothing if the configuration failed |
| `ConfigBindings.UnboundKeepsInv` | plugins/dde-dock/common/dconfig_helper.cpp:115-144 | unbinding one key or all takes back exactly those bindings, and the callback with the last one |
| `ConfigBindings.DestroyKeepsInv` | plugins/dde-dock/common/dconfig_helper.cpp:96-98 | the destruction of an object takes back exactly its bindings, and does nothing for one never bound |
| `ConfigBindings.DestroyedObjectsAreForgotten` | plugins/dde-dock/common/dconfig_helper.cpp:96-98 | after its destruction an object is in no table any more |
| `ConfigBindings.UnbindMatches` | plugins/dde-dock/common/dconfig_helper.cpp:123-140 | unbinding takes back exactly the bindings of the object to the key, in all configurations |
| `ConfigBindings.WithoutKeyKeepsDistinct` | plugins/dde-dock/common/dconfig_helper.cpp:132 | removing a key keeps the others, once each |
| `ConfigBindings.DConfigHelper.InitializeDConfig` | plugins/dde-dock/common/dconfig_helper.cpp:26-62 | a new configuration is remembered under its path and starts with no bindings |
| `ConfigBindings.DConfigHelper.Bind` | plugins/dde-dock/common/dconfig_helper.cpp:64-99 | finds or makes the configuration, binds the key and replaces the object's callback; nothing happens without an object, and no binding is made without a configuration |
| `ConfigBindings.DConfigHelper.DConfigObject` | plugins/dde-dock/common/dconfig_helper.cpp:211-223 | finds the configuration of a path, or makes one and remembers it; a failure is not remembered |
| `ConfigBindings.PathsCollideIff` | plugins/dde-dock/common/dconfig_helper.cpp:225-230 | two descriptions that lead to the same path are the same exactly if their application ids have one length and their names have one length |
| `ConfigBindings.PathsCollide` | plugins/dde-dock/common/dconfig_helper.cpp:225-230 | because nothing separates the parts, text that moves over a boundary leads to the same path from another description |
| `ConfigBindings.LookupsMeetIff` | plugins/dde-dock/common/dconfig_helper.cpp:211-223 | two lookups one after the other end at one configuration exactly if their paths are equal, and no two paths remembered share a configuration |
| `ConfigBindings.DescriptionsMeetIff` | plugins/dde-dock/common/dconfig_helper.cpp:211-230 | different descriptions end at one configuration exactly if their paths are equal while the lengths of their first two parts are not |
| `ConfigBindings.DConfigHelper.UnbindIn` | plugins/dde-dock/common/dconfig_helper.cpp:126-139 | what unbinding does in one configuration, and whether it leaves the object useful there |
| `ConfigBindings.DConfigHelper.UnbindInAll` | plugins/dde-dock/common/dconfig_helper.cpp:123-140 | the loop unbinds in every configuration, and finds the object useful exactly if it is left with a key in one |
| `ConfigBindings.DConfigHelper.Unbind` | plugins/dde-dock/common/dconfig_helper.cpp:115-144 | the callback goes with the last key |
| `ConfigBindings.DConfigHelper.OnDestroyed` | plugins/dde-dock/common/dconfig_helper.cpp:96-98 | the `destroyed` connection unbinds everything |
| `ConfigBindings.DConfigHelper.OnValueChanged` | plugins/dde-dock/common/dconfig_helper.cpp:45-59 | calls each object bound to the key once, and no other |
| `UniqueId.IdsStayDistinct` | plugins/application-tray/util.cpp:511-529 | after every run of requests and releases in which no base has 100 ids in use when one is asked for, all ids in use are different |
| `UniqueId.TableIsExactIff` | plugins/application-tray/util.cpp:511-529 | the table holds just the ids in use, each in use once, throughout a run exactly if fewer than 100 ids of a base are in use whenever one is asked for |
| `UniqueId.IdsDifferFromTheStart` | plugins/application-tray/util.cpp:511-529 | from the empty table, in every such run the ids in use are all different and are just those in the table |
| `UniqueId.IdsDifferThroughoutIff` | plugins/application-tray/util.cpp:511-529 | from the empty table, the ids in use are all different throughout a run exactly if each request finds a number whose name is no bare id in use, or, with its base exhausted, the bare id itself not in use |
| `UniqueId.DistinctThroughoutIff` | plugins/application-tray/util.cpp:511-529 | the same from every state with different ids in use, those in the table among them, whatever bare ids are in use besides |
| `UniqueId.StepKeepsDistinctIff` | plugins/application-tray/util.cpp:511-529 | one request keeps the ids in use different exactly under that condition, and a release always does |
| `UniqueId.BareIsWhatIsLeft` | plugins/application-tray/util.cpp:514-523 | the ids in use are those in the table and the bare ids handed out by exhausted bases |
| `UniqueId.RoomIsEnoughIff` | plugins/application-tray/util.cpp:511-524 | while no bare id is in use, a request hands out a new id exactly when its base has a number left or is no id itself |
| `UniqueId.BareIdIsFoundAgain` | plugins/application-tray/util.cpp:511-524 | for every base a run from the empty table after which the base has all but two numbers left, and still its next id is one in use: the bare id of an exhausted base |
| `UniqueId.BareIdIsRepeated` | plugins/application-tray/util.cpp:522-523 | for every base, a hundred requests from the empty table and two more hand out the same bare id twice |
| `UniqueId.AskingCounts` | plugins/application-tray/util.cpp:514-520 | from the empty table, requests for one base are given its numbers in order |
| `UniqueId.SearchSucceedsIff` | plugins/application-tray/util.cpp:514-520 | the bounded search succeeds exactly when fewer than 100 ids of the base are in use |
| `UniqueId.NumberIsDecimal` | plugins/application-tray/util.cpp:515 | the number behind the dash is written in decimal without leading zeros |
| `UniqueId.NamesAreDistinct` | plugins/application-tray/util.cpp:515 | base, dash and number can be read back from a name, whatever dashes and digits the base holds |
| `UniqueId.ExhaustedBaseRepeats` | plugins/application-tray/util.cpp:522-523 | an exhausted base hands out the same bare id again and again |
| `UniqueId.ReleasedIdIsAvailable` | plugins/application-tray/util.cpp:526-529 | a released id is the next one of its base unless a lower number is free |
| `UniqueId.FirstFree` | plugins/application-tray/util.cpp:514-520 | the number found is the first free one |
| `UniqueId.Util.GenerateUniqueId` | plugins/application-tray/util.cpp:511-524 | the loop finds the first free number, or falls back to the bare base without recording it |
| `UniqueId.Util.RemoveUniqueId` | plugins/application-tray/util.cpp:526-529 | takes the id out of the table |

## Left out

- InputShape.GuardRefinesAlwaysSending: is stated for runs that recycle ids late, which is sufficient; `GuardRefinesAlwaysSendingIff` gives the exact condition.
- InputShape.RunKeepsInv: records are exact only once the destroy event of their window has been handled, because the event arrives later than the destruction (`RecordIsExactIff` says exactly when); a reset that fires after its handler is destroyed, and windows whose destruction is not reported, are not modelled.
- MenuMirror.MirrorIsExact: assumes that item ids are unique, do not move between menus and are not used again while an old action with that id awaits deletion, because otherwise it is false (`EarlyReuseShowsTwice`, `MovedItemIsLost`); `MirrorStaysInOrderIff` gives the exact condition.
- MenuMirror.DBusMenuImporter.DeleteNow: deletes an action and its submenu in one step, because both deletions are posted together and nothing of the importer runs between them.
- MenuMirror.DBusMenuImporter.CreateAction: does not model items with `x-kde-title`, because their actions carry no id; property updates change no menu and are not modelled.
- TrayRegistry.NoProcessIsShownTwice: assumes at most one registered item and one registered icon per process, because otherwise it is false (`SecondIconStays`); `ExclusionHoldsIff` gives the exact condition.
- CardSurface.RunKeepsInv: assumes that the card flag is not lost while the card is visible, because otherwise it is false (`LostFlagLeavesCard`; `CardStaysInOrderIff` gives the exact condition), that only the card item shows card windows, and that windows are hidden before they are destroyed.
- CardSurface.Surfaces.DeletePlugin: the objects of other windows share the map in the source; the model has those of card windows only. Plugin ids, types and flags set on an object, and its other connections, are not modelled.
- UniqueId.IdsStayDistinct: assumes that no base is exhausted, which is sufficient; otherwise ids can repeat (`BareIdIsRepeated`, `BareIdIsFoundAgain`), and `DistinctThroughoutIff` gives the exact condition.
- ConfigBindings.DConfigHelper.OnValueChanged: does not model callbacks that bind or unbind while they are called.
- LayoutCodec.Read: fails on a malformed message, where the source goes on with default items; D-Bus delivers well-formed ones only.
- Shortcut.FromKeySequence: begins and ends at the text of a key sequence; what Qt's `QKeySequence` makes of that text is not part of this model.
- Brightness.OneCallSendsInOrder: assumes that at most one call is in flight, which is sufficient; without any condition it is false (`LastRequestCanBeOverwritten`), and `RunSendsInOrderIff` gives the exact one for the order.
- Brightness.BrightnessController.SendTaken: the calls to the display service are recorded in the order they are made; that the service applies them in that order, their outcomes, and the list of monitors are not modelled.
- ConfigCache.QuiescentProxyIsExact: assumes that the config thread is told of outside changes by its event loop, and so after initialisation, while the proxy's own writes call the handler at once; values of the wrong type in the config, the fallback value of a key that is not set, and the destructor are not modelled; the constructors differ only in how the config is made.
- Damage.StepKeepsInv: the X server's own destruction of a damage object with its window is not modelled.
- Painting, layouts, tooltip contents, mouse handling and image conversion: no state that would make a hard property.
- The other generated settings proxies repeat the one modelled, and the D-Bus adaptors only forward.
- Plugin scanning, environment handling, monitor ordering and settings getters: true but easy.
