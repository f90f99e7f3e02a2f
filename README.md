# UIManager: window registry and layering engine

This project models in Dafny the `UIManager` class of a Unity game client
(`UIManager.cs`). The class keeps every window ("UI") of the game under
one root. Each window is a `UIBase` component.

The manager holds five collections:

- the registry `_mdicUIUnderRoot`, from a registry key (the prefab name) to
  a window record;
- the stack list `_StackUIList` of stack-tier names, whose last name is on
  top;
- the overlay ("superposition") list `_SuperpositionUIList` of window
  records;
- the opened list `_OpenUiList`;
- the common-UI cache `_CommonUIList`, from a resource path to a preloaded
  object.

The operations open, close, refresh, look up and tear down windows. They
also give each window a draw order computed from its tier (`eUIType`) and
from the windows already in that tier.

The model follows the source's imperative form:

- `UIManagerCore.UIManager` is a class with one field per collection. Its
  methods reassign those fields.
- Window records are objects of class `UIWindow.UIBase`, whose fields the
  methods update in place. The overlay list and the opened list hold
  references, as in C#. So a record that `removeUIFromUIRoot` unregisters
  but that stays on a list is modelled as it is.
- The loops of `GetCanvasOder`, `getTopUI`, `_getUIUnderRoot`,
  `closeAllUIInRoot`, `removeAllUIUnderRoot`, `removeUIUnderRootExceptType`
  and `ClearCommonUI` are `for`/`while` loops with invariants.
  `GetCanvasOder` fills arrays, as the source does.
- External effects are kept as logs in the manager:
  - the messages sent through `MessageDispatcher`;
  - the `ResourceManager.Load` requests;
  - the multiset of names passed to `ResourceManager.Release`.

Each method that changes the registry, the tier lists, the opened list or
the logs is proved against a function of module `ManagerState`. The
method's `ensures` states `Snap() == F(old(Snap()), …)`, where `Snap()` is
those collections and logs as one value, plus the new field values of each
record it touches. The common-UI cache and a record's common sub-windows
are not part of `Snap()`: `AddCommonUI`, `ClearCommonUI` and `CreateUI`
state their new cache and sub-window lists directly, and `SetUIActive` and
`OnLoadedUIAddToRoot` state the record fields they set. The lemmas of
`ManagerState` then state what those functions do: what is unregistered, what each list
becomes, what is released and sent. Every public operation keeps the
invariant `Valid()` (`ManagerState.Consistent`):

- the registry and its key order agree;
- every record is filed under its own `uiTypeName`;
- the lists hold no duplicates;
- only the top name of the stack list can still be registered;
- a stack window is not on the overlay list.

These behaviours of the code are modelled as written:

- **Tier overwrite on reuse.** Reopening a registered record overwrites its
  tier with the argument even when that is `None` (line 238).
- **Two lookup keys.** `addUIToRoot` checks the registry under the class's
  short name but registers under the prefab name.
- **Stale stack names.** Opening a stack window tears down (`DesUI`) the
  window filed under the previous top name but leaves that name on the stack
  list. The name then counts as order 0 in `GetCanvasOder`, and only the top
  name of the stack list can still be registered (`ManagerState.StackOk`).
- **Closing can recreate.** Closing a stack window reopens the new top name
  with `openUIInRoot(top, StackUI)`. When the record under that name was torn
  down, this creates a fresh placeholder, registered and requested from the
  loader (`ReopenedRecord`).
- **Load completion.** The callback indexes the registry without a guard; the
  missing key, which throws in C#, is the outcome `KeyNotFound`. It attaches
  the content to the record filed under the context's `uiTypeName`, marks
  that record inactive and does not send a pending refresh.
- **Closing twice is not always closing once.** `closeUIInRoot<T>` looks the
  window up by class name and, failing that, by GameObject name among all
  records. A second close can therefore find and close another record that
  carries the class name. Only a close that finds no active window changes
  nothing.

## Model

| member | source | states |
|---|---|---|
| UITypes.MaxOf | UIManager.cs:335 | Mathf.Max over a non-empty array is an element of the array and at least every element |
| UITypes.TierOrder | UIManager.cs:317-358 | the order of a tier: 2000 with an empty stack list, else 100 above the highest stack order and equal to one of them plus 100; 4000 with no overlay, else 100 above the highest overlay order; any other tier its enum value TypeValue (None 0, BaseUI 1, MaskUI 6000, TopUI 8000) |
| UIManagerCore.UIManager.StackOrdersAt | UIManager.cs:340-348 | entry i of the orders read from the stack list is the order of the record filed under the i-th name, 0 when that name is no longer registered |
| UIManagerCore.UIManager.OverlayOrdersAt | UIManager.cs:326-331 | entry i of the orders read from the overlay list is the order of the i-th overlay |
| UIManagerCore.UIManager.GetCanvasOder | UIManager.cs:317-358 | the arrays filled by the loops give exactly TierOrder of the tier over the current stack and overlay orders |
| UIManagerCore.UIManager.FirstNamed | UIManager.cs:721-729 | the record the fallback lookup finds is registered and its GameObject carries the name |
| UIManagerCore.UIManager.FirstNamedSpec | UIManager.cs:721-729 | the fallback finds nothing only when no record filed under the listed keys has that GameObject name, and otherwise finds one that has it |
| UIManagerCore.UIManager.FirstNamedAt | UIManager.cs:722-728 | when the i-th key is the first whose record carries the name, the fallback returns that record (the first match wins) |
| UIManagerCore.UIManager.UIUnderRoot | UIManager.cs:715-732 | the lookup by class name returns a registered record of that class: the one filed under the class name if it is of that class, else one whose GameObject is named after the class |
| UIManagerCore.UIManager.UIUnderRootNone | UIManager.cs:715-732 | the lookup returns null when nothing is filed under the class name and no registered GameObject carries it |
| UIManagerCore.UIManager.GetUIUnderRoot | UIManager.cs:715-732 | the loop over the registry's values returns what UIUnderRoot specifies |
| UIManagerCore.UIManager.CheckTargetUIActive | UIManager.cs:774-781 | answers TargetActive of the name: whether a window filed under it is open; an open makes that true (OpenActivates), a close of the window makes it false (CloseUIInRoot), and a load completion makes it false (OnLoadedUIAddToRoot) |
| UIManagerCore.UIManager.OpenActivates | UIManager.cs:201-306 | after openUIInRoot of a class that resolves, checkTargetUIActive of the opened name is true |
| UIManagerCore.UIManager.GetTargetUI | UIManager.cs:166-184 | non-null exactly when a record is filed under the class name, its content is loaded and it is of that class; then it is that record |
| UIManagerCore.UIManager.TargetUIAgrees | UIManager.cs:166-184 | GetTargetUI never disagrees with _getUIUnderRoot: what it finds is what the lookup finds, and a loaded record the lookup finds under the class name is what GetTargetUI finds |
| UIManagerCore.UIManager.LookupFallsBack | UIManager.cs:715-732 | with nothing filed under the class name, the lookup returns the one registered record whose GameObject carries the class name, so a second closeUIInRoot<T> can close another record |
| UIManagerCore.UIManager.GetTopUI | UIManager.cs:397-414 | null exactly when no active stack or overlay window of the opened list has a positive order; otherwise the window at some index k that has the highest positive order, with every earlier candidate strictly lower (the earliest wins ties) |
| UIManagerCore.UIManager.SetUIActive | UIManager.cs:186-190 | the record's active flag is the argument |
| UIManagerCore.UIManager.RemoveUIFromUIRoot | UIManager.cs:658-668 | the name is unregistered and its record destroyed; every list stays as it was; the invariant is kept |
| ManagerState.UnfiledConsistent | UIManager.cs:658-668 | unregistering a name keeps the invariant and leaves the name in neither the registry nor its key order |
| UIManagerCore.UIManager.DesUI | UIManager.cs:618-653 | the window leaves the opened list and is destroyed; a registered window also loses its common sub-windows, is released once and is unregistered; an unregistered one keeps its sub-windows; the tier lists are untouched |
| ManagerState.DroppedConsistent | UIManager.cs:618-653 | after DesUI the invariant holds and the window is neither on the opened list nor registered |
| UIManagerCore.UIManager.ContainsValue | UIManager.cs:627 | in a consistent registry, a record is among the values exactly when it is filed under its own name |
| ManagerState.FiledUnderOwnName | UIManager.cs:627-629 | a registered record is the one filed under its uiTypeName |
| UIManagerCore.UIManager.Detach | UIManager.cs:606-613 | the window's name leaves the stack list and the window leaves the overlay list, nothing else changes, and the invariant is restored |
| ManagerState.DetachedTwice | UIManager.cs:606-613 | taking a window off the tier lists a second time changes nothing |
| ManagerState.DetachedAfter | UIManager.cs:437-463 | an earlier removal of the window from one tier list is absorbed by removeUI's own removal |
| UIManagerCore.UIManager.RemoveUI | UIManager.cs:604-616 | removeUI(UIBase): the window is off both tier lists and then dropped as by DesUI; the record is destroyed and a registered one loses its sub-windows |
| ManagerState.RemovedConsistent | UIManager.cs:604-616 | after removeUI the invariant holds and the window is on no list and not registered |
| UIManagerCore.UIManager.RemoveUIByName | UIManager.cs:592-598 | nothing changes when no record is filed under the name; otherwise that record is removed as by removeUI |
| ManagerState.PurgedStep | UIManager.cs:507-587 | removing one more registered record from a partly purged state is purging one more name |
| ManagerState.PurgedConsistent | UIManager.cs:507-587 | purging registered names keeps the invariant |
| ManagerState.PurgedAll | UIManager.cs:561-567 | removing every registered record empties the registry and its key order and takes every registered record off the opened list |
| ManagerState.ChosenIn | UIManager.cs:509-536 | a name has been handled by a teardown loop exactly when the loop has passed it and it is selected |
| ManagerState.ChosenStep | UIManager.cs:509-536 | one more step of a teardown loop adds the next name when it is selected and nothing otherwise |
| ManagerState.ChosenAll | UIManager.cs:509-536 | a loop that has passed every selected name has handled exactly the selected names |
| ManagerState.TornDown | UIManager.cs:530-533 | a record torn down by a loop is destroyed, has no common sub-windows, and is inactive when the loop deactivates it |
| UIManagerCore.UIManager.Pending | UIManager.cs:509-536 | the next record a teardown loop reaches has not been handled and still has the fields it had when the loop started |
| UIManagerCore.UIManager.Skip | UIManager.cs:515-518 | passing over a record the loop does not select keeps the loop's invariant one step further |
| UIManagerCore.UIManager.Finished | UIManager.cs:509-536 | at the end of a teardown loop exactly the selected names are purged, their records torn down and every other record unchanged |
| UIManagerCore.UIManager.CloseStep | UIManager.cs:520-533 | one step of closeAllUIInRoot on a selected record: it is off the tier lists, inactive and removed, and the state is purged by one more name |
| UIManagerCore.UIManager.CloseNext | UIManager.cs:511-535 | the body of closeAllUIInRoot's loop keeps the loop invariant for the next index |
| UIManagerCore.UIManager.CloseAllUIInRoot | UIManager.cs:507-537 | exactly the records that are active and destroyed on a scene switch are taken off the lists, deactivated, released and unregistered; every other record stays registered with its fields unchanged |
| UIManagerCore.UIManager.CopyValues | UIManager.cs:561-562 | a new array of the registered records in the enumeration order of their keys |
| UIManagerCore.UIManager.ClearTiers | UIManager.cs:555-556 | both tier lists are empty and nothing else changes |
| UIManagerCore.UIManager.RemoveEach | UIManager.cs:563-566 | with both tier lists cleared, removing each record of the copy empties the registry, releases every key once, takes every registered record off the opened list and tears every record down |
| UIManagerCore.UIManager.ClearRegistry | UIManager.cs:567 | the registry and its key order are empty and the invariant holds |
| UIManagerCore.UIManager.RemoveAllUIUnderRoot | UIManager.cs:553-568 | the registry and both tier lists are empty, every registered key is released once, the registered records leave the opened list and every record is destroyed without sub-windows |
| UIManagerCore.UIManager.ClearStack | UIManager.cs:577 | the stack list is empty and nothing else changes |
| UIManagerCore.UIManager.RemoveOthers | UIManager.cs:576-586 | exactly the records whose tier differs from the given one are removed; the others stay registered with their fields unchanged |
| UIManagerCore.UIManager.RemoveUIUnderRootExceptType | UIManager.cs:573-587 | the stack list is cleared, every record of another tier is removed and torn down, and the records of the given tier stay registered and unchanged |
| UIManagerCore.UIManager.RegistUI | UIManager.cs:735-739 | whatever was filed under the name is destroyed and unregistered, and the record is filed under the name, last in enumeration order |
| ManagerState.RegisteredConsistent | UIManager.cs:735-739 | registering keeps the invariant up to the stack shape of that name, and the record is filed under its own name |
| UIManagerCore.UIManager.AddUIToRoot | UIManager.cs:126-161 | nothing changes when the class does not resolve or a record is filed under its short name; else a non-UIBase component only asks for a load; a UIBase gets a fresh record, with the initial fields and named after the class, registered under the prefab name and requested from the loader |
| UIManagerCore.UIManager.OnLoadedUIAddToRoot | UIManager.cs:743-762 | no asset, a non-UIBase context or an unregistered key are the three error outcomes; otherwise the record filed under the context's key is marked loaded and inactive, and nothing else changes; a record of the class is then what GetTargetUI returns, and checkTargetUIActive is false |
| UIManagerCore.UIManager.OpenUIInRoot | UIManager.cs:201-312 | the invariant is kept; a registered record is reopened (Reopened); otherwise a record is created and placed exactly when the class resolves to a UIBase, and an unresolvable name leaves only the load request addUIToRoot makes; a stack open destroys the window it covers |
| UIManagerCore.UIManager.ReopenedClearsRefresh | UIManager.cs:300-305 | reopening a registered record whose payload is held only with a pending refresh leaves refreshFuncCallBack false and refreshFuncData null |
| UIWindow.PairingKept | UIManager.cs:300-305 | a new component holds no payload without a pending refresh; refreshUI's deferral (lines 389-390) writes both together; the flush keeps that pairing exactly when it held before |
| UIManagerCore.UIManager.OpenFound | UIManager.cs:217-306 | the record filed under the name takes the requested tier even when it is None, the order GetCanvasOder gives after the list removals, the scene flag; it is active and listed and its pending refresh sent |
| UIManagerCore.UIManager.SetType | UIManager.cs:238 | the found record takes the requested tier at once |
| UIManagerCore.UIManager.AddRecord | UIManager.cs:211-215 | a record is found after addUIToRoot exactly when the class resolves to a UIBase; it is fresh, with the initial fields, and registered and requested; otherwise only the load request of a non-UIBase component is added |
| UIManagerCore.UIManager.OpenNew | UIManager.cs:211-215 | the open of a name nothing is filed under creates a record and places it when the class resolves, and otherwise changes only the load log |
| UIManagerCore.UIManager.Place | UIManager.cs:243-306 | the record is placed (Placed) and ends active, with the scene flag, its tier, its computed order and no pending refresh; the covered window is destroyed |
| UIManagerCore.UIManager.Layer | UIManager.cs:246-266 | the record is off both tier lists and has the tier, the scene flag and the order that GetCanvasOder gives once the record is off the lists |
| UIManagerCore.UIManager.DetachFor | UIManager.cs:246-254 | after the list removals GetCanvasOder reads exactly the orders OrderOnOpen takes into account |
| UIManagerCore.UIManager.Retier | UIManager.cs:257-262 | a tier other than None is set again, the scene flag is the argument, and the orders of the tier lists are unchanged |
| UIManagerCore.UIManager.Reorder | UIManager.cs:266 | the record's order is what GetCanvasOder gives its tier |
| UIManagerCore.UIManager.Settle | UIManager.cs:268-306 | the record is filed in its tier's list, listed as opened, activated, and its pending refresh sent and cleared |
| UIManagerCore.UIManager.FileInTier | UIManager.cs:268-289 | an overlay joins the overlay list unless it is on it; a stack window destroys the window filed under the top name and goes on top; other tiers change nothing |
| UIManagerCore.UIManager.PushStack | UIManager.cs:276-287 | the record filed under the top stack name, if any, is torn down, while its name stays on the stack list; the record's name goes on top |
| UIManagerCore.UIManager.Show | UIManager.cs:292-306 | the record is on the opened list once, active, and a pending refresh is sent once with its payload and then cleared |
| ManagerState.TieredFacts | UIManager.cs:268-289 | the tier switch unregisters, releases and unlists only the record filed under the previous top stack name (never the record being opened), and appends the record to its tier's list; the previous top's name stays |
| ManagerState.TieredStack | UIManager.cs:276-287 | the stack case of the switch: the previous top is unregistered, released and taken off the opened list, and the name goes on top of the unchanged list |
| ManagerState.TieredConsistent | UIManager.cs:268-289 | filing a registered window that is on neither tier list keeps the invariant |
| ManagerState.ShownConsistent | UIManager.cs:292-296 | listing a window as opened keeps the list free of duplicates, with the window on it |
| ManagerState.PlacedConsistent | UIManager.cs:243-306 | an open restores the invariant and keeps the record filed |
| ManagerState.CoveredOther | UIManager.cs:276-285 | the window an open tears down is registered and is never the window being opened |
| ManagerState.PlacedRegistry | UIManager.cs:243-306 | an open unregisters and releases exactly the covered window and asks for no load |
| ManagerState.PlacedOpened | UIManager.cs:284-306 | after an open the opened list is the old one without the covered window with the record appended unless it was there, and a pending refresh is sent exactly once |
| ManagerState.PlacedOnce | UIManager.cs:246-296 | after an open the record is on the opened list exactly once; a stack window's name is on the stack list exactly once and on top, an overlay is on the overlay list exactly once, and any other window's name is off the stack list |
| ManagerState.PlacedLists | UIManager.cs:246-289 | after an open a stack window's name is last on the stack list and nowhere else; an overlay is last on the overlay list; any other tier is on neither list |
| ManagerState.PlacedUncovered | UIManager.cs:276-287 | an open that covers nothing leaves the registry, its key order and the releases unchanged |
| ManagerState.CreatedCovered | UIManager.cs:211-215 | registering a new record under the name does not change which window opening it covers |
| UIManagerCore.UIManager.RefreshUI | UIManager.cs:374-392 | no window found: nothing changes; a loaded and active window: one UI_Refresh_Event message with the payload, its pending fields untouched; otherwise the refresh is left pending with the payload, the last one winning |
| UIManagerCore.UIManager.OpenOrRefreshUI | UIManager.cs:360-369 | when the lookup finds no window it opens the class as a window of the given tier; otherwise it refreshes the found window with no payload |
| UIManagerCore.UIManager.CloseUIInRoot | UIManager.cs:422-474 | a missing or inactive window: nothing changes; an active one leaves its tier list, a stack window's new top name is reopened as a stack window, and the window is deactivated and removed (Closed): it is unregistered and checkTargetUIActive of its name is false |
| UIManagerCore.UIManager.CloseActive | UIManager.cs:435-463 | an active registered window is closed: off its tier list, deactivated, removed, and for a stack window the name below reopened |
| UIManagerCore.UIManager.CloseFlat | UIManager.cs:435-463 | closing a window of another tier than the stack: an overlay leaves the overlay list, then the window is deactivated and removed |
| UIManagerCore.UIManager.CloseStack | UIManager.cs:443-463 | closing a stack window: its name leaves the stack list, the new top name is reopened with StackUI, and the window is deactivated and removed |
| UIManagerCore.UIManager.PopAndDismiss | UIManager.cs:443-463 | the stack close in terms of the record under the new top name: reopened, or newly created when none is filed and the class resolves |
| UIManagerCore.UIManager.Dismiss | UIManager.cs:462-463 | the window is inactive and removed as by removeUI; the record on top of the stack is untouched |
| UIManagerCore.UIManager.DropOverlay | UIManager.cs:440 | List.Remove on an overlay list without duplicates leaves it without the window and otherwise in order |
| UIManagerCore.UIManager.PopOverlay | UIManager.cs:440 | the window leaves the overlay list and nothing else changes, the invariant kept |
| UIManagerCore.UIManager.DropName | UIManager.cs:443 | the name leaves the stack list; the order the new top name will be reopened with is the one computed from that list |
| UIManagerCore.UIManager.PopStack | UIManager.cs:443-450 | the name leaves the stack list and the new top name, if any, is reopened as a stack window (ReopenedTop, RecordReopened) |
| UIManagerCore.UIManager.ReopenTop | UIManager.cs:446-449 | openUIInRoot(top, StackUI) on the new top name places the record found or created there and tears nothing down |
| UIManagerCore.UIManager.ReopenFound | UIManager.cs:446-449 | the found record under the new top name is reopened as a stack window with its order, activity, scene flag and refresh set |
| UIManagerCore.UIManager.ReopenCreated | UIManager.cs:446-449 | when nothing is filed under the new top name and the class resolves, a fresh record is created, registered and placed on top |
| UIManagerCore.UIManager.ReopenUnresolved | UIManager.cs:446-449 | when the new top name does not resolve, at most a load is asked for |
| ManagerState.BelowTopUnfiled | UIManager.cs:443-449 | below the top name of a consistent stack list nothing is registered, so reopening the top covers nothing |
| ManagerState.ReopenBelow | UIManager.cs:443-463 | closing a stack window while the name below is reopened leaves that name on top and filed, the invariant kept, and the closed window on no list and unregistered |
| UIManagerCore.UIManager.AddCommonUI | UIManager.cs:707-713 | the first object cached for a path is kept; a new path is cached with the object |
| UIManagerCore.UIManager.ReleaseEach | UIManager.cs:677-680 | every cached path is released exactly once |
| UIManagerCore.UIManager.ClearCommonUI | UIManager.cs:675-682 | every cached path is released once and the cache is empty; nothing else changes |
| UIManagerCore.UIManager.CreateUI | UIManager.cs:688-705 | null exactly when the path is not cached, changing nothing; otherwise a fresh, unregistered, loaded component of the class on a clone of the cached object, appended to the owner's common sub-windows |
| Lists.Remove | UIManager.cs:246-249 | List.Remove leaves a list without the element unchanged; RemoveOne states that otherwise it takes away exactly one occurrence |
| Lists.RemoveOne | UIManager.cs:246-249 | List.Remove takes away exactly one occurrence of the element |
| Lists.RemoveIsKeep | UIManager.cs:606-613 | on a list without duplicates List.Remove takes away every occurrence |
| Lists.KeepIn | UIManager.cs:606-613 | an element survives a filter exactly when it is on the list and not filtered out |
| Lists.KeepNoDups | UIManager.cs:606-613 | filtering keeps a list free of duplicates |
| Lists.AppendNoDups | UIManager.cs:292-296 | adding an element that is not on a list keeps it free of duplicates |
| Lists.OnceIfNoDups | UIManager.cs:292-296 | on a list without duplicates, a listed element occurs exactly once |

## Left out

- `init` and `SetUICompent` (camera, canvas, EventSystem and resolution setup) are rendering-engine plumbing.
- `changeSortOrder`, `setParticleOrder` and `_OnLoadedUI` work on Unity renderers or are unused; they are not modelled.
- The wrapper entry points (`ShowPopUp`, `HidePopUp`, `ShowNumKeyBoard`, `setHurryPrompt`, `setHorseLamp`, `OpenUtCardMain`, `BackLogin`) belong to other subsystems.
- The generic overloads `openUIInRoot<T>` and `checkTargetUIActive<T>` only pass the class name on; the model calls the string forms with that name.
- Logging (`Debug.Log`, `UTLog`) is left out; a logged failure is a path that changes nothing.
- The UIBase hooks `OnAutoRelease`, `OnAutoLoadedUIObj` and the `OnUICloseEvent` event are calls into code outside this model and are not recorded.
- `recoverOder` is taken to change nothing the manager reads: the next open overwrites the order, or the record is destroyed.
- `freshCanvasOder` is taken to set the order to `GetCanvasOder` of the record's tier, read after the list removals. `_OnLoadedShowUI` is taken to set `bShowUILoaded`. The canvas sorting order is the record's order field.
- `SetUIActive`: the GameObject's active flag (`activeInHierarchy`, `isActiveAndEnabled`) is the record's `isActive`; parent objects are not modelled.
- The engine effects are not modelled: GameObject creation, `DestroyImmediate` (only a `destroyed` flag), parenting, instantiating the loaded prefab.
- `ResourceManager.Load` is asynchronous in the engine; the callback is a separate method the environment calls, and a request is only logged.
- `System.Type.GetType` is a fixed map from class names to the short name of the class and whether it is a UIBase. The casts `as T` test the exact class; subclasses are not modelled.
- A new component's field values (no tier, order 0, inactive, not loaded, nothing pending) are taken as UIBase's initial values, which are not part of this model.
- Dictionary enumeration order is modelled as insertion order. .NET reusing freed slots after removals is not modelled.
- Orders are unbounded integers; 32-bit overflow of `Mathf.Max(...) + 100` is not modelled.
- `uiTypeName` is set when the record is created; the source assigns it just after `_registUI`, and nothing reads it in between.
- `ClearCommonUI` releases the paths in an unspecified order; the model states the multiset of released paths, not their order.
- UIManagerCore.UIManager.GetTopUI: every record is taken to have a canvas, so the `_mCanvas != null` test is always true; Unity's `!= null` on a record is `!destroyed`, a destroyed component comparing equal to null.
- UIManagerCore.UIManager.CloseUIInRoot: closing twice is not closing once. When another registered record's GameObject carries the class name, the second close falls back to it (LookupFallsBack); only when no registered GameObject carries it is the second close a no-op (UIUnderRootNone).
- UIManagerCore.UIManager.FirstNamed: `string.Compare(name, typeName) == 0` is culture-sensitive in .NET; the model compares character sequences with `==`, which agrees for the identifier-like class names used here.
- UIManagerCore.UIManager.GetUIUnderRoot: the name test of the fallback loop is the same `==` comparison as FirstNamed, not .NET's culture-sensitive `string.Compare`.
- UIManagerCore.UIManager.OpenUIInRoot: the payload is cleared only together with a pending flag, so the contract gives `refreshFuncData == null` after a reopen only for a record that holds no payload without a pending refresh (ReopenedClearsRefresh, RefreshPaired); the model keeps that pairing as a lemma (PairingKept) about UIBase's initial values, refreshUI and the flush, which are the only writers here, not as part of `Valid()`.
- UIManagerCore.UIManager.CreateUI: the mount is a non-null `UIBase`; on a null mount the source throws a NullReferenceException at `uiMount.CommonUIList.Add` (UIManager.cs:697), after the clone and its component exist, and that path is not modelled.
- UIManagerCore.UIManager.ReopenCreated: a record created while reopening is stated to be one that was not registered before, rather than fresh, because freshness of an object allocated inside the nested open is not carried through the stack-close predicates.
- UIManagerCore.UIManager.ClearRegistry: the registry is cleared only where it is already empty, which RemoveEach proves it is at that point.
- Several source steps are split into proof steps that do the same thing: the loop bodies (CloseNext, RemoveNext, RemoveOtherNext), the bodies of removeUIFromUIRoot and DesUI and of one teardown step (Unregister, Discard, TakePurge, TakeClose), the branches of ReopenTop and ReopenMissing (both make the same call), PurgeOne, and the two halves CreatedOnTop and CreatedOnTopRecord of the proof of ReopenCreated.
