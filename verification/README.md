# Verification model of the cmux pane layout engine

cmux is a GTK terminal multiplexer. Each workspace keeps three views of one
layout: a binary tree of panes, a forest of GTK widgets (dividers with two
slots, one page of a Stack), and one native terminal surface per pane, which
owns a shell or an agent process. This project models the code that keeps the
three in step, and four neighbours of it: saving and restoring a layout, the
debounced session save, the process statistics, and the rewriter of the browser
setting. Verify everything with `dafny verify dfyconfig.toml`.

| file | what it models |
|---|---|
| `Prelude.dfy` | options, duplicate-free sequences |
| `Layout.dfy` | the pane tree, its lookups and its two rewrites |
| `Engine.dfy` | what each engine operation does to the fields, over whole runs |
| `Widgets.dfy`, `Drawing.dfy` | widget trees, and the one a pane tree describes |
| `Surfaces.dfy` | the realize, unrealize and focus handlers over the global registries |
| `Toolkit.dfy` | slots, Stack page and the handlers a change of place runs |
| `Agreement.dfy` | when tree, forest and surfaces agree, and the value-level half of each proof |
| `SplitEngines.dfy` | the engine as a class: every operation as the source orders its steps |
| `Sharing.dfy` | several workspaces on the one set of surface registries |
| `Agents.dfy`, `Restore.dfy` | the agent registry; saving and rebuilding a tree |
| `SaveProtocol.dfy` | snapshot, channel, notification, worker, temporary file, rename, kill |
| `PanicSave.dfy` | the panic hook and the worker saving through the same temporary file |
| `ProcStat.dfy` | process tree closure, aggregation, pane matching |
| `BrowserSettings.dfy` | the line rewriter of `config.toml` |
| `Workspaces.dfy` | workspaces as values: attention, commands and their runs |
| `AppState.dfy` | the workspace list as a class, and the session restore |

The environment rule: an area is realized exactly while its chain of parents
reaches the Stack page, and gaining or losing that runs its realize or unrealize
handler at once. Setting a divider's slot to a child that sits elsewhere is
refused by the toolkit; the model records that in `rejected` and changes
nothing. Which areas `ghostty_surface_new` would succeed for is an input, the
field `grants` of the registries, and can be another set for every command.

`SplitEngine.Valid` is the agreement: the tree satisfies its invariant, no
setter was ever refused, the forest is exactly what the tree describes (when a
pane is zoomed: that pane alone on the page, and the rest, detached, with an
empty slot where it was), the registries match the realized areas, cached
surface pointers are right, and no preserve mark is pending.

## What holds, and what does not

- **Runs.** Over every run of splits, previews, spawns, focus moves, clicks,
  zooms, synchronisations and closes, up to the first close below a nested split,
  the views agree after every command, and each command takes the step of the pure
  engine, so that all laws of `Engine` hold of the object. A terminal that stays
  keeps its area, uuid and surface, the surface of one that is closed is freed, and
  none is freed twice (`SplitEngine.RunCommands`).
- **Splits.** A split happens exactly if the pane is a terminal with a surface, or one
  that is granted a surface when a zoom is undone; the divider above the new pane has
  the direction asked for, in the tree and on screen, with the old pane first
  (`SplitEngine.SplitPane`, `Layout.SplitLeafIsPut`).
- **Saving.** Safety and progress: the worker's own steps always lower a measure
  (`SaveProtocol.WorkRunLowers`), and from every reachable state they lead to where the
  last session taken is what a load returns (`SaveProtocol.WorkerSettles`). The one
  exception is the source's: a save that fails is given up until the next change.
- **Nested close.** In a divider slot the survivor of a close is not unparented
  before the setter is called (`src/split_engine.rs:1500-1510`), in contrast to the
  Stack (1511-1522). `SplitEngine.CloseActive` proves that the views agree after a
  close if and only if the removed split was the Stack page, and says what is
  left otherwise: the old widgets stay, the closed pane's surface stays alive,
  the survivor's marks stay pending, and its area, though on screen, is missing from
  the area registries if and only if it held a surface. `Engine.NestedCloseIsReachable` gets there
  with two splits. The laws of the tree itself hold for every close.
- **Closing a workspace** does not undo a zoom first. `SplitEngine.LeaveStack` proves that
  every surface is freed if and only if no pane that holds one is hidden by a zoom;
  the hidden ones stay alive (`Agreement.ZoomedCloseLeavesSurface`).
- **Previews** are saved under the nil uuid and come back as terminals: a restore
  gives back the uuids if and only if every pane is a terminal or has the nil uuid
  already (`Restore.UuidsRestoredIff`). Since restored previews share that uuid, the
  active pane is found again if and only if no earlier pane is saved under its uuid,
  and it is itself, or it is the first pane and none is (`Restore.SaveThenRestore`);
  `Restore.NilUuidsLoseActive` is an input where it is not.
- **Agents** come back with provider and session in every tree within the bound
  (`Restore.AgentPaneRestored`), and whole exactly when the launch directory was
  recorded and is not empty, or there is none and none can be guessed
  (`Restore.ResumedSameIff`, and `Restore.DirectoryNotKept` for inputs where they do
  not). Panes that share a uuid share one entry, and a guess is made for the last.
- **Pane matching** is by uuid, and restored previews share one. Leftover panes then take
  terminals in pane order if and only if no other uuid stands between two places of
  one (`ProcStat.LeftoversInOrderIff`), and one goes without only when every free
  terminal went to another if and only if no uuid repeats among those that find one
  (`ProcStat.UnmatchedOnlyIfIff`). `ProcStat.RepeatedUuidStarves` and
  `ProcStat.RepeatedUuidBreaksOrder` are inputs where they do not.
- **Workspaces.** Every run does what its commands do (`AppState.App.RunCommands`), so that
  `Workspaces.RanSound` and `Workspaces.ElsewhereKeepsShown` hold of the object: closing
  other workspaces, among commands that do not switch, leaves the shown one shown.
- **Sidebar.** A failed restore has already appended a row
  (`src/app_state.rs:216-224`); after a session restore the rows line up with the
  workspaces if and only if every tree was within the bound
  (`AppState.App.RestoreSession`).
- **Pane ids** are unique in one engine only. A bell, or a click, reaches the workspace
  it was meant for if and only if no earlier one has a terminal, or a pane, of the
  same id (`Workspaces.BellReachesIff`, `Workspaces.ClickReachesIff`); two restored
  workspaces always collide (`Workspaces.RestoredPanesCollide`). A surface looked up by
  pane id is the pane's own if and only if its pointer is cached or no other area
  holds a surface under that id (`Sharing.FoundIsOwnIff`).
- **Panic hook.** It writes the same temporary file as the worker. When a save starts,
  session.json stays whole if and only if the other saver is between saves, or has
  just opened the file for the same text (`PanicSave.SaveSafeIff`); every other case
  is broken by steps that `PanicSave.SaveBreaks` names. Even without an overlap the
  committed text can become older, if and only if a save starts with a text older
  than the committed one (`PanicSave.SaveLowersIff`): the worker's, when it had taken
  it before the hook saved (`PanicSave.HookOvertaken`).
- **Browser setting.** Reading back gives the value if and only if it holds no control
  character that TOML forbids in a basic string (`BrowserSettings.PutThenGetIff`);
  the escaper passes those through (`BrowserSettings.ControlNotReadBack`). On the
  text of the file, a second write gives what it alone would if and only if no line
  that stays still ends in a carriage return (`BrowserSettings.TextPutPutIff`). The comment at
  `src/browser_settings.rs:170-173` says a missing key is inserted right after the
  section header; the code inserts it at the section's end (`BrowserSettings.PutPlace`).

## Model

| member | source | states |
|---|---|---|
| Layout.FirstPaneLeads | src/split_engine.rs:1528-1533 | the pane that takes over is the first of its subtree in tree order |
| Layout.FindPaneIffListed | src/split_engine.rs:131-145 | a pane is found exactly if it is among the leaves, and what is found is that pane |
| Layout.ParentPanedExists | src/split_engine.rs:1667-1694 | a divider is reported exactly for the panes below a split |
| Layout.SplitLeafInserts | src/split_engine.rs:1385-1426 | replacing succeeds exactly on a terminal of the tree, and the new pane comes right behind it in order |
| Layout.SplitLeafIsPut | src/split_engine.rs:941-1103 | the terminal, wherever it is, is exchanged for a divider of the orientation asked for with the terminal first and the new pane second; nothing else changes |
| Layout.SplitLeafOver | src/split_engine.rs:941-1103 | the split directly above the new pane is that divider, and the new pane is found |
| Layout.SplitLeafFacts | src/split_engine.rs:1385-1426 | the result keeps ids distinct, holds exactly one pane more and counts the new terminal |
| Layout.RemovePaneDefined | src/split_engine.rs:1430-1492 | removal works for every pane below a split and for nothing else |
| Layout.RemovePaneIsPrune | src/split_engine.rs:1430-1492 | removal exchanges the split above the pane for the pane's sibling, wherever it is, and names the sibling's first pane |
| Layout.RemovePaneKeepsOrder | src/split_engine.rs:1430-1492 | exactly that pane leaves the order; the rest stays as it was |
| Layout.RemovePaneTerminals | src/split_engine.rs:1430-1492 | the terminal count drops by one exactly if the pane was a terminal |
| Layout.RemoveUndoesSplit | src/split_engine.rs:1385-1492 | removing what a split added gives back the identical tree and names the split pane |
| Layout.SplitLeafKeepsPane | src/split_engine.rs:1385-1426 | a split leaves every other pane exactly what it was |
| Layout.RemovePaneKeepsPane | src/split_engine.rs:1430-1492 | a close leaves every other pane exactly what it was |
| Layout.SyncKeepsPane | src/split_engine.rs:596-620 | copying pointers fills exactly those that are missing and registered, and changes nothing else of a pane and no divider above it |
| Layout.LookupsByPosition | src/split_engine.rs:86-102 | uuid of a pane and pane of a uuid are lookups by position in tree order, first match wins |
| Engine.RunProgress | src/split_engine.rs:756-1317 | over every run: the invariant stays, ids only grow, none that is gone comes back, and a pane that stays keeps its widget and uuid |
| Engine.ExecKeepsPanes | src/split_engine.rs:756-1317 | no operation but a close takes a pane out of the tree |
| Engine.ReachableStatesAreSound | src/split_engine.rs:1218-1271 | from one terminal: ids distinct and below the next id, the active pane in the tree, a terminal left, a zoomed pane in a split tree |
| Engine.ClosedTailNeverResolves | src/split_engine.rs:725-767 | a spiral tail whose pane was closed never names another pane, so spawning falls back to the active one |
| Engine.SplitDoes | src/split_engine.rs:756-848 | a split makes the next id the active pane, in a divider of the direction asked for above the terminal that was split, exactly if that terminal has a surface; otherwise only the id is used up and the zoom undone |
| Engine.PreviewDoes | src/split_engine.rs:861-937 | a preview goes to the right of the active terminal, which stays active; beside a preview nothing is added |
| Engine.SpiralDoes | src/split_engine.rs:711-754 | a spawn splits the pane named, else the open tail, else the active pane, downwards exactly if that pane is known to be taller than wide; the new pane is the tail, and a failed spawn changes neither tail nor active pane |
| Engine.CloseRefusedIffLastTerminal | src/split_engine.rs:1218-1287 | None exactly for the only terminal, tree unchanged; otherwise exactly the active pane leaves the order |
| Engine.CloseActivatesSibling | src/split_engine.rs:1218-1287 | the new active pane is the first pane of the closed pane's sibling subtree |
| Engine.CloseUndoesSplit | src/split_engine.rs:756-848 | closing right after a split gives back the identical tree and active pane; one id is used up |
| Engine.FocusThereAndBack | src/split_engine.rs:1291-1317 | a focus move that succeeds is undone by the opposite one |
| Engine.FocusByPosition | src/split_engine.rs:1611-1635 | left and up go to the pane before in tree order, right and down to the one after, and at the ends nothing moves |
| Engine.RightMovesVisitInOrder | src/split_engine.rs:1615-1635 | k moves right from pane i end at i + k or at the last pane: every pane once, in order, then stop |
| Engine.SpawnKeepsSpine | src/split_engine.rs:743-754 | one spawn or look: the right spine grows at its end by exactly the spawned pane |
| Engine.SpawnsFormSpine | src/split_engine.rs:711-754 | n spawns between any focus moves, zooms and synchronisations give the spine p0,(p1,(...pn)) of height n |
| Engine.NestedCloseIsReachable | src/split_engine.rs:1500-1510 | two splits and a close remove a split that is not the Stack page |
| Drawing.SyncCaches | src/split_engine.rs:596-620 | copying registered pointers keeps every cached pointer right and misses none that is registered |
| Surfaces.ReleasedThenAcquired | src/ghostty/surface.rs:376-423 | an unrealize followed by a realize frees exactly the unmarked surfaces, keeps the marked ones, and gives an area without one a new surface exactly if it is granted |
| Surfaces.ReleasedTogether | src/ghostty/surface.rs:376-423 | unrealizing two separate batches of areas frees what one batch would |
| Surfaces.Registries.OnRealize | src/ghostty/surface.rs:156-344 | a surface in the cell is kept and listed again; an area without one holds one afterwards exactly if the environment grants it, never handed out before and the clipboard target; the registries fit the realized areas |
| Surfaces.Registries.OnUnrealize | src/ghostty/surface.rs:356-423 | the area is unlisted; a mark is used up and saves the surface, without one it is freed, once, and no longer the clipboard target |
| Surfaces.Registries.OnFocusEnter | src/ghostty/surface.rs:708-732 | the clipboard target becomes the focused area's surface and stays live |
| Surfaces.Registries.Forget | src/split_engine.rs:1242-1261 | a closed pane's area leaves both area registries and the invariant stays |
| Surfaces.Registries.RealizeAll | src/ghostty/surface.rs:156-344 | a whole subtree coming on screen: no surface lost, and each area holds one exactly if it did or is granted one |
| Surfaces.Registries.UnrealizeAll | src/ghostty/surface.rs:356-423 | a whole subtree leaving: exactly the unmarked areas' surfaces are freed |
| Toolkit.Gtk.StackRemove | src/split_engine.rs:1511-1522 | the page comes off as one detached tree and everything on it unrealizes |
| Toolkit.Gtk.StackAdd | src/split_engine.rs:1511-1522 | a detached tree becomes the page under that name; its areas realize and hold a surface exactly if they did or are granted one |
| Toolkit.Gtk.SetSlot | src/split_engine.rs:961-977 | a slot accepts its own child or a detached one, which takes the place of a child that is there; any other child is refused and nothing moves |
| Toolkit.Gtk.RemoveFromParent | src/split_engine.rs:1698-1716 | the widget ends up detached with all below it, whether it was in a slot, on the page or nowhere |
| Toolkit.Gtk.ReplaceChild | src/split_engine.rs:1495-1525 | on the Stack the new child takes the page under the same name; in a slot the setter is refused |
| SplitEngines.SplitEngine.constructor | src/split_engine.rs:385-418 | a fresh engine agrees in all three views, and its terminal holds a surface exactly if it is granted one |
| SplitEngines.SplitEngine.MarkSubtree | src/split_engine.rs:1640-1663 | exactly the areas of the subtree are marked in addition |
| SplitEngines.SplitEngine.ZoomActivePane | src/split_engine.rs:1140-1175 | the active pane alone is on the page, the rest is the same forest with an empty slot, every surface is kept, and only the active pane may gain one, if it is granted |
| SplitEngines.SplitEngine.Unzoom | src/split_engine.rs:1177-1213 | the full drawing is back on the page under the same name, every surface kept and exactly the granted ones gained; no early return is taken |
| SplitEngines.SplitEngine.ToggleZoom | src/split_engine.rs:1121-1132 | either of the two, by whether a pane is zoomed; agreement stays |
| SplitEngines.SplitEngine.ZoomThereAndBack | src/split_engine.rs:1121-1213 | zoom, any focus moves by direction or click, unzoom: tree, forest and page name are what they were, every surface is kept, and the fields are those that the moves lead to |
| SplitEngines.SplitEngine.WrapLeaf | src/split_engine.rs:941-1010 | the replaced pane moves into a new divider of the given direction without losing its surface or breaking a setter's precondition |
| SplitEngines.SplitEngine.ReplaceInTree | src/split_engine.rs:1385-1426 | the rewritten tree is the split tree, to which the laws of `SplitLeafIsPut` apply; the forest follows it on the whole way up, and of all areas exactly that of the split pane and the new one come on screen again |
| SplitEngines.SplitEngine.FindSurface | src/split_engine.rs:1326-1338 | on registries of its own: found exactly for terminals that hold a surface, their own, and never a freed one |
| SplitEngines.SplitEngine.SplitPane | src/split_engine.rs:756-848 | split beside a named pane: made exactly if it is a terminal that holds a surface, or is granted one when a zoom is undone; in the tree and on screen a divider of the direction asked for holds the two; the new pane is active, the clipboard target, and holds a surface exactly if granted; all others are kept |
| SplitEngines.SplitEngine.SplitActive | src/split_engine.rs:756-848 | the same for the active pane; the id is used up and a zoom undone even when it fails |
| SplitEngines.SplitEngine.SplitPreview | src/split_engine.rs:861-937 | made exactly beside an active terminal, which stays active; in the tree and on screen a horizontal divider holds the two; agreement stays |
| SplitEngines.SplitEngine.SpiralSplit | src/split_engine.rs:743-754 | the same as a split of the pane named, else of the open tail, else of the active pane, in the direction that pane's size asks for |
| SplitEngines.SplitEngine.FocusNext | src/split_engine.rs:1291-1317 | only the active pane and the clipboard target change; surfaces and forest do not |
| SplitEngines.SplitEngine.FocusPane | src/ghostty/surface.rs:754-758 | in the engine that a click reaches, the pane becomes the active one and the clipboard target; an id that is not in its tree is ignored |
| SplitEngines.SplitEngine.RaiseSibling | src/split_engine.rs:1443-1477 | on the page the sibling takes the divider's place with its surfaces; below it the setter is refused |
| SplitEngines.SplitEngine.RemoveLeafFromTree | src/split_engine.rs:1430-1492 | the tree is always pruned; the widgets follow exactly if the removed split is the page |
| SplitEngines.SplitEngine.CloseActive | src/split_engine.rs:1218-1287 | refused for the only terminal with nothing lost; otherwise the views agree if and only if the split was the page, and then exactly the closed pane's surface is freed and the survivor is the clipboard target; if not, the area registries are wrong exactly if that pane held a surface |
| SplitEngines.SplitEngine.LeaveStack | src/app_state.rs:384-396 | closing the workspace frees exactly the surfaces on the page: all of them if and only if no pane holding one is hidden by a zoom |
| Agreement.ZoomedCloseLeavesSurface | src/app_state.rs:384-396 | two panes that agree in all views, one zoomed: when the page goes, the other one's surface is left |
| SplitEngines.SplitEngine.SyncSurfaces | src/split_engine.rs:596-620 | registered pointers are copied and nothing else changes; when nothing is zoomed, every pane holding a surface has its pointer cached |
| SplitEngines.SplitEngine.Perform | src/split_engine.rs:756-1317 | one command: agreement stays, the fields take the step of the pure engine with the widget numbers, armed state and pointers the engine had, every terminal carries its area and surface along or has it freed, and of the areas that come on screen exactly those hold a surface that did or are granted one |
| SplitEngines.LeadsMeans | src/split_engine.rs:756-1317 | what a command has then done: a split or spawn divides the pane meant in the direction meant exactly if it holds a surface or is granted one by an unzoom, and the new terminal holds one exactly if granted; previews, closes, moves, clicks, zooms and synchronisations likewise |
| SplitEngines.SplitEngine.RunCommands | src/split_engine.rs:756-1317 | every run of commands up to a nested close, with any grants during each: agreement, each command its step, the fields those of the pure run, which areas hold a surface said exactly, terminals carried with area and surface or freed once, no mark pending |
| Sharing.SharedRelease | src/ghostty/callbacks.rs:31-35 | unrealizing one workspace's areas on the shared registries does to its part what it would do to registries of its own, and nothing to the others' |
| Sharing.OthersAgree | src/ghostty/callbacks.rs:31-35 | what touches one workspace's areas only keeps every other workspace's views in agreement |
| Sharing.SharedRun | src/ghostty/callbacks.rs:91-108 | a sequence of marks, unrealizes and realizes of one workspace's areas, under changing grants, goes through its part as through registries of its own, and every other workspace's views stay in agreement |
| Sharing.PartBalanced | src/ghostty/callbacks.rs:31-35 | when the shared registries agree with all realized areas, each workspace's part agrees with its own, as its operations require |
| Sharing.FoundIsOwnIff | src/split_engine.rs:1326-1338 | the lookup finds the pane's own surface only, exactly if the pointer is cached or no other area holds a surface under the pane id |
| Agents.NameRoundTrip | src/agent.rs:36-53 | the name a provider is saved under names it again |
| Agents.FromStrIff | src/agent.rs:36-44 | a provider is named by exactly its own name or, for Claude, by claude-code, once lowered |
| Agents.AnyCase | src/agent.rs:36-44 | the case of ASCII letters makes no difference |
| Agents.AgentRegistry.Register | src/agent.rs:103-119 | exactly this surface's entry is set |
| Agents.AgentRegistry.SetSessionId | src/agent.rs:138-149 | the first id wins, other surfaces are untouched, unknown ones reported |
| Restore.RebuildNumbers | src/split_engine.rs:453-592 | panes are numbered in order from the given id, all of them terminals |
| Restore.RestoredInv | src/split_engine.rs:453-478 | a restored engine satisfies the engine invariant |
| Restore.LayoutRestored | src/split_engine.rs:1943-2013 | saving and rebuilding keeps shape and orientations, whatever the tree |
| Restore.PaneSaved | src/split_engine.rs:1943-1982 | the i-th leaf is saved for the i-th pane: a terminal under its id and uuid with the shell and its agent, a preview as an empty leaf |
| Restore.DirectoriesRestored | src/split_engine.rs:1952-1966 | after a save and a restore the shell of every pane starts where the old one was: in an agent's launch directory, else where its process was last seen, else nowhere in particular |
| Restore.UuidsRestoredIff | src/split_engine.rs:1972-1982 | the uuids come back in order if and only if every pane is a terminal or carries the nil uuid |
| Restore.ActiveRestored | src/split_engine.rs:453-478 | for every tree: the active pane is the first one saved under the uuid that was active, else the first pane |
| Restore.FoundAgainIff | src/split_engine.rs:453-478 | that is the pane that was active exactly if no earlier one is saved under its uuid and it is itself, or it is first and none is |
| Restore.FoundAgainUnlessPreview | src/split_engine.rs:453-478 | with distinct uuids, none nil: exactly if it is a terminal or the first pane |
| Restore.SaveThenRestore | src/split_engine.rs:453-592 | the round trip for every tree: restorable exactly up to the bound, same layout, panes 1 to k, next id k + 1, which uuids come back, and exactly when the active pane does |
| Restore.PreviewFreeRoundTrip | src/split_engine.rs:453-592 | without previews and with distinct uuids, nil or not: same uuids in order, same active pane, and the result can go round again |
| Restore.PreviewsComeBackNil | src/split_engine.rs:1972-1982 | two previews come back as two terminals under one uuid |
| Restore.NilUuidsLoseActive | src/split_engine.rs:453-478 | of two such terminals the second is active, and after a save and restore the first is |
| Restore.SpiralRestorableIff | src/split_engine.rs:487-490 | a layout made by n spawns can be restored exactly while n is at most 16 |
| Restore.RegisteredElsewhere | src/split_engine.rs:480-592 | rebuilding registers no surface that is not in the data |
| Restore.RegisteredInTurn | src/split_engine.rs:480-592 | for every tree, within the bound or not: exactly the leaves before the first one beyond the bound are registered, in order |
| Restore.AgentsRestored | src/split_engine.rs:1943-2013 | for every tree within the bound and every uuid: an agent of a terminal is registered again with provider and session, its guessed directory that of the last terminal under the uuid, and no other entry changes |
| Restore.AgentPaneRestored | src/split_engine.rs:1943-2013 | every agent pane comes back with provider and session, whole if its directory was recorded, and with the guess for its own surface if the uuid is its own |
| Restore.ResumedSameIff | src/split_engine.rs:1943-2013 | the exact condition under which the whole registration survives, directory included |
| Restore.DirectoryNotKept | src/split_engine.rs:1955-1966 | a directory recorded empty, or never, comes back as the guess |
| Restore.NodeFromData | src/split_engine.rs:480-592 | rebuilding succeeds exactly within the bound, leaves the finished tree detached beside the rest, and creates no surface |
| Restore.RestoreEngine | src/split_engine.rs:453-478 | an engine comes out exactly for restorable data, in full agreement, its agents registered, its shells told to start in the saved directories, and each terminal holding a surface exactly if granted |
| SaveProtocol.StepInv | src/main.rs:183-203 | one atomic step of sender, worker, disk or a kill keeps the protocol's invariant and the disk's version never falls |
| SaveProtocol.RunInv | src/main.rs:183-203 | the same over every interleaving |
| SaveProtocol.NoUpdateLost | src/app_state.rs:594-643 | whenever the worker waits and no sender is in mid-call, the queue is empty, and the last snapshot sent is the one committed, and what a load returns, exactly if the last save did not fail |
| SaveProtocol.WorkRunLowers | src/main.rs:183-203 | whatever the worker does on its own, in any order and with failed saves, lowers a well-founded measure or changes nothing, so it stops unless a sender acts |
| SaveProtocol.WorkSettles | src/main.rs:183-203 | a worker left alone gets to where it waits with nothing queued, without a failed save, and gives up nothing that was on its way |
| SaveProtocol.WorkerSettles | src/app_state.rs:594-643 | from every reachable state the rest of the sender's call and the worker's own steps lead to where it waits, the queue is empty, and a load returns the last snapshot taken, unless that one's save had failed before |
| SaveProtocol.ChangeReachesDisk | src/app_state.rs:594-643 | from every reachable state between calls, a change of the session is on disk after the call and steps of the worker alone, with its active index and workspaces, as version 2 |
| SaveProtocol.FailedSaveIsLost | src/main.rs:198-201 | the input for the exception: a first save that fails leaves the worker waiting, the queue empty and no session.json |
| SaveProtocol.Load | src/session.rs:112-137 | loading gives what the library reads, exactly for the two known versions |
| SaveProtocol.RememberedNotOlder | src/session.rs:52-54 | the snapshot kept for a panic is never older than the disk |
| SaveProtocol.KillIsSafe | src/session.rs:90-137 | after a kill at any point session.json is absent or a complete committed snapshot, and loading gives the last one committed |
| SaveProtocol.RenameCommitsTaken | src/session.rs:90-100 | a rename commits the newest snapshot received, in full |
| PanicSave.AloneRunsAreWhole | src/session.rs:90-100 | as long as no save starts while the other is under way, session.json is whole after every step, kills included |
| PanicSave.AloneFromStart | src/session.rs:90-100 | the same from a directory without files |
| PanicSave.TwinRunsAreWhole | src/session.rs:58-67 | worker and hook may write the same text at once, if both start on the empty file |
| PanicSave.SaveSafeIff | src/session.rs:58-67 | a save that starts keeps session.json whole in every continuation exactly if the other saver is between saves or has just opened the file for the same text |
| PanicSave.SaveBreaks | src/logging.rs:70-84 | for every other case the steps that leave a session.json that is no committed text |
| PanicSave.SaveLowersIff | src/session.rs:58-67 | a save that starts alone can put back an older text exactly if its own is older than the committed one |
| PanicSave.HookOvertaken | src/logging.rs:70-84 | without any overlap: the hook commits the newer text, then the worker the older one it had taken before |
| PanicSave.SaveAfterStop | src/session.rs:90-100 | from any state with a whole session.json, a kill or two failed saves leave it as it is, and the next save puts its text there in full, whatever is in the temporary file |
| ProcStat.Descendants | src/procstat.rs:96-108 | exactly the pids reachable from the root, each once, in the order of discovery, on cyclic lists too |
| ProcStat.LastFoundFirst | src/procstat.rs:96-108 | what was discovered last is searched to its end before anything discovered earlier, on every list and from every stage of the search |
| ProcStat.ChildPidsInOrder | src/procstat.rs:112-121 | the direct children come in the order of the list, each because of its own entry |
| ProcStat.ChildrenApart | src/procstat.rs:112-148 | no process is below two children |
| ProcStat.BelowAChild | src/procstat.rs:112-148 | the strict descendants are what is at or below some direct child |
| ProcStat.ChildEntry | src/procstat.rs:122-144 | one entry sums its whole subtree and names the first pane that a process of it names, in the order of discovery |
| ProcStat.FirstNamedIs | src/procstat.rs:131-133 | the first process that names a pane decides, whatever later ones name |
| ProcStat.SortEntriesFacts | src/procstat.rs:145-147 | sorting puts terminals in ascending order and processes without one last, and keeps entries and totals |
| ProcStat.SortEntriesStable | src/procstat.rs:145-147 | entries of one terminal, and those without one, stay in the order they stood in |
| ProcStat.ChildProcessStats | src/procstat.rs:112-148 | one entry per readable child: a process without a terminal after all that have one, terminals ascending, ties in the order of the children; together they count every strict descendant once |
| ProcStat.MatchExact | src/procstat.rs:159-187 | every exact match with a terminal is honoured and claims its process; the other panes are left over in order |
| ProcStat.LeftOverInOrder | src/procstat.rs:159-187 | the panes left over stand in pane order |
| ProcStat.MatchPanePts | src/procstat.rs:159-187 | the result is exactly the terminals of the processes in `Matching`, to which the laws below apply |
| ProcStat.EntryCases | src/procstat.rs:159-187 | a matched pane has its exact process or one nobody claims, never a negative terminal; an exact match is used exactly if it has a terminal |
| ProcStat.MatchedApart | src/procstat.rs:159-187 | two matched panes get the same process exactly if they have the same uuid |
| ProcStat.LeftoverEntry | src/procstat.rs:159-187 | for every pane list: a leftover uuid is matched exactly if one of its places finds a free process, and gets that of the last such place |
| ProcStat.LeftoversByLast | src/procstat.rs:159-187 | of two leftover panes the one whose uuid comes for the last time later gets the later process, and no smaller terminal |
| ProcStat.LeftoversInOrderIff | src/procstat.rs:159-187 | all leftover panes take processes in pane order exactly if no other uuid stands between two places of one uuid |
| ProcStat.FreeGivenIff | src/procstat.rs:159-187 | a free process is given to a pane exactly if the uuid in its place has no later place that finds one |
| ProcStat.UnmatchedOnlyIfIff | src/procstat.rs:159-187 | a leftover pane stays unmatched only while every free terminal goes to another pane, exactly if no uuid repeats among the leftover panes that find a process |
| ProcStat.RepeatedUuidStarves | src/socket/handlers.rs:1184-1208 | two panes under one uuid before a third: it stays unmatched while a free terminal goes to nobody |
| ProcStat.RepeatedUuidBreaksOrder | src/socket/handlers.rs:1184-1208 | with the third between the two, the first gets a later terminal than the second |
| BrowserSettings.PersistChromiumPath | src/browser_settings.rs:179-249 | the loop writes the lines of `Put`, to which the laws below apply |
| BrowserSettings.EscapeIsOnePass | src/browser_settings.rs:288-290 | the two replacements do what one pass over the characters does |
| BrowserSettings.EscapeUndoneIff | src/browser_settings.rs:288-290 | TOML decoding undoes the escaping exactly for values without forbidden control characters |
| BrowserSettings.KeyLineReads | src/browser_settings.rs:254-261 | the written line is recognised as the key, is no header, and reads back as its value |
| BrowserSettings.IsKeyIff | src/browser_settings.rs:251-261 | a line sets the key exactly if it is the key itself, any blanks, an equals sign and whatever follows |
| BrowserSettings.IsHeaderIff | src/browser_settings.rs:204-209 | a header is exactly what stands between square brackets |
| BrowserSettings.TrimIs | src/browser_settings.rs:197-198 | trimming takes off all the blanks at both ends and nothing else |
| BrowserSettings.InBrowserIff | src/browser_settings.rs:204-216 | one is inside the section exactly below a [browser] header with no other header since |
| BrowserSettings.PutChangesOnlyTheKey | src/browser_settings.rs:179-249 | one key line remains over all sections (none when clearing), every line that is not of the form in `IsKeyIff` survives in order, a missing section is added at the end |
| BrowserSettings.OtherLineStays | src/browser_settings.rs:204-230 | a line outside [browser], a header and any other setting survive |
| BrowserSettings.LongerNameStays | src/browser_settings.rs:251-261 | so does a setting in [browser] whose name merely begins with the key |
| BrowserSettings.PutPlace | src/browser_settings.rs:204-245 | the key line takes the place of the first line that sets the key in the first [browser] section, or stands at the end of that section, or ends a new one if there is none; all else stays around it |
| BrowserSettings.PutThenGetIff | src/browser_settings.rs:179-249 | reading back gives the value written if and only if it can be written at all |
| BrowserSettings.ClearThenGet | src/browser_settings.rs:179-249 | nothing can be read after clearing |
| BrowserSettings.PutPut | src/browser_settings.rs:179-249 | writing w after v equals writing w alone |
| BrowserSettings.ClearAfterPut | src/browser_settings.rs:179-249 | clearing undoes writing, except for a section that writing had to add |
| BrowserSettings.LinesReadBack | src/browser_settings.rs:184-202 | what was written line by line is read line by line, less a carriage return at the end of a line |
| BrowserSettings.LineEndings | src/browser_settings.rs:196-197 | a newline ends a line, and a carriage return right before it is part of the line end |
| BrowserSettings.KeyLineIsOneLine | src/browser_settings.rs:192-200 | the written line is a single line exactly for newline-free values |
| BrowserSettings.RewrittenReadsBack | src/browser_settings.rs:179-249 | the text that is written is read as the lines that were written |
| BrowserSettings.TextPutPutIff | src/browser_settings.rs:179-249 | on the text of the file, writing w after v equals writing w alone exactly if no line that stays still ends in a carriage return |
| BrowserSettings.TextPutThenGetIff | src/browser_settings.rs:179-249 | on the text, reading back gives the value if and only if it can be written |
| BrowserSettings.ControlNotReadBack | src/browser_settings.rs:288-290 | a control character is a value that does not read back |
| Workspaces.SetAttentionFacts | src/split_engine.rs:260-281 | the flag is set or cleared on exactly the terminal named, and it is reported whether there is one |
| Workspaces.AnyAttentionIff | src/split_engine.rs:260-281 | a tree wants attention exactly if a terminal of it does |
| Workspaces.ClearAttentionFacts | src/app_state.rs:412-453 | clearing leaves no attention and the same panes in the same places |
| Workspaces.ExecAttention | src/split_engine.rs:756-1317 | no layout operation makes attention appear |
| AppState.App.SwitchToIndex | src/app_state.rs:412-453 | an index in range becomes active and calm, any other is ignored |
| AppState.App.SwitchPrev | src/app_state.rs:465-475 | the inverse step of switching to the next workspace, around the end |
| AppState.App.CreateWorkspace | src/app_state.rs:131-187 | one workspace with its engine and row at the end, shown at once |
| AppState.App.RestoreWorkspace | src/app_state.rs:192-236 | None exactly beyond the depth bound, with an orphan row; otherwise the saved workspace, not shown |
| AppState.App.CloseWorkspace | src/app_state.rs:372-408 | refused for the last one; closing another keeps the same workspace active, closing the active one shows its neighbour; nothing else but the shown one's attention changes |
| AppState.App.SetPaneAttention | src/app_state.rs:510-536 | exactly the first workspace with that terminal is marked, pane and flag |
| AppState.App.EnterPane | src/ghostty/surface.rs:749-760 | focus that enters a pane makes it active in exactly the first workspace with a pane of that id |
| Workspaces.BellReachesIff | src/app_state.rs:510-536 | a bell marks the terminal it was meant for exactly if no earlier workspace has a terminal of that id |
| Workspaces.ClickReachesIff | src/ghostty/surface.rs:749-760 | a click activates the pane it was meant for exactly if no earlier workspace has a pane of that id |
| AppState.App.RestoreSession | src/main.rs:409-439 | one workspace per saved one, in order and by name, trees back where they fit and a single pane where not, the saved one shown, rows aligned if and only if all fit |
| AppState.App.Perform | src/app_state.rs:131-546 | one command does to the fields exactly what `Did` says, and engines, active index and attention stay in order |
| AppState.App.RunCommands | src/app_state.rs:131-546 | a run with closes in range does what its commands do one after the other, keeps engines, active index and attention in order, and the rows aligned if every restored tree fits |
| Workspaces.RanSound | src/app_state.rs:131-546 | over every run: one engine for each workspace, an active index in range, workspaces in the order of their ids, which are never reused, none without a workspace again, and a workspace that stays keeps uuid and group |
| Workspaces.ElsewhereKeepsShown | src/app_state.rs:372-408 | over every run that closes other workspaces, restores, rings, clicks, renames and lays out, the same workspace stays shown |
| Workspaces.WorkspaceRoundTrip | src/app_state.rs:192-236 | a saved and restored workspace keeps uuid, name, group and layout, and its active pane exactly when that is found again |
| Workspaces.SessionRoundTrip | src/app_state.rs:594-643 | a saved and restored session has as many workspaces in the same order, the same one to be shown, and each is there again: its whole tree within the bound, a single terminal under its name beyond it |
| Workspaces.RestoredPanesCollide | src/app_state.rs:510-536 | two restored workspaces share pane ids, and a bell or click in the second goes to the first |

## Left out

- Rendering, CSS, drag gestures, pixel sizes and divider ratios: a pane's size is an arbitrary input to the orientation choice, ratios are not restored.
- GL contexts: a realize handler is assumed to obtain one, so its early return for an area in error is not modelled.
- The surface library beyond new, preserve and free; clipboard, keys and mouse. For which areas new succeeds is fixed for the length of one command: one that comes on screen twice in a command gets the same answer.
- Several workspaces: each engine has a toolkit and registries of its own, with one Stack page that is realized while it is there; `Sharing` says what carries over to the shared ones. A restored workspace whose page has not been shown yet is modelled as shown.
- SplitEngines.SplitEngine.FindSurface: on registries shared with other workspaces it can find another one's surface; Sharing.FoundIsOwnIff says exactly when it cannot.
- SplitEngines.SplitEngine.FocusPane: which engine a click reaches is the business of AppState.App.EnterPane and Workspaces.ClickReachesIff.
- SplitEngine: the tree is a value held by the object, where the source owns it through boxes and overwrites nodes in place; the widget and registry updates are in place in both.
- Toolkit: dropped widgets stay in the forest as detached trees.
- Rust's borrow guard around focus signals: a focus signal that arrives while an operation holds the state is ignored by the source, and is a separate click in the model.
- SplitEngines.SplitEngine.RunCommands: stops before a close below a nested split, because the views do not agree after one; CloseActive says what such a close leaves.
- AppState: workspaces hold the fields of an engine, not its widgets; what closing a workspace does to these is SplitEngines.SplitEngine.LeaveStack.
- SaveProtocol: the JSON library is a parameter, assumed to read what it writes where the result of a load is stated; `--fresh`, which removes the files before the worker starts, is not a step; the panic hook is the subject of PanicSave.
- SaveProtocol.NoUpdateLost: a save that fails is given up until the next change, as in the source (`FailedSaveIsLost`), so the disk is claimed only when the last save did not fail.
- ProcStat: parsing of /proc; CPU time stays in clock ticks; a snapshot does not change while it is read.
- Restore.DirectoriesRestored: the directory a new area is told to start in; where a process then is, is the environment's. The first terminal of a fresh workspace and of a split starts without one, the latter inheriting it inside the surface library.
- BrowserSettings: reading and atomically replacing the file; the `\u` and `\U` escapes in the decoder, which the writer never produces.
- PanicSave: a save that starts while two others already overlap; the lock around the remembered snapshot; snapshots are texts, and every text starts with a brace.
- Workspace display numbers and names, groups beyond being carried over, connection state, SSH, the browser daemon, sockets, the command line, notifications.
