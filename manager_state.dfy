/** The manager's collections as one value, the effect of each of its
    operations on them as a function, and the invariant they keep. */
module ManagerState {
  import opened Lists
  import opened UITypes
  import opened UIWindow

  /** What System.Type.GetType resolves a class name to: the Name of the
      class, and whether the class derives from UIBase. */
  datatype ClassInfo = ClassInfo(name: string, isUIBase: bool)

  /** The two message names the manager sends to a window. */
  datatype Event =
    | Refresh          // "refresh": a pending refresh flushed by an open
    | UIRefreshEvent   // DispatcherName.UI_Refresh_Event: sent by refreshUI

  /** One MessageDispatcher.SendMessage call. */
  datatype Message = Message(target: UIBase, event: Event, data: Payload?)

  /** One ResourceManager.Load call: the prefab name, and the component that
      the loader hands back to the callback (null when it is no UIBase). */
  datatype LoadRequest = LoadRequest(name: string, context: UIBase?)

  /** How a run of the load-completion callback ends. */
  datatype LoadOutcome =
    | Attached     // the content was attached to the registered window
    | NoAsset      // the loader delivered nothing; only an error is logged
    | BadContext   // the context is no UIBase: the cast throws
    | KeyNotFound  // nothing is registered under the context's name: the indexer throws

  /** The cast `ui as T` for the class named t (exact class, no subclasses). */
  function Cast(ui: UIBase?, t: string): UIBase? reads {} {
    if ui != null && ui.typeName == t then ui else null
  }

  /** A window of the openUIs list that getTopUI takes into account. */
  predicate TopCandidate(w: UIBase)
    reads w`destroyed, w`isActive, w`uiType
  {
    !w.destroyed && w.isActive && Accumulates(w.uiType)
  }

  /** string.IsNullOrEmpty(perfabName) ? className : perfabName */
  function OpenName(className: string, perfabName: string): string {
    if perfabName == "" then className else perfabName
  }

  // ------------------------------------------------------------ snapshots

  /** The manager's collections and the effects it has logged, at one moment. */
  datatype Snapshot = Snapshot(
    registry: map<string, UIBase>,  // _mdicUIUnderRoot
    keys: seq<string>,              // the enumeration order of its keys
    stack: seq<string>,             // _StackUIList, the last name on top
    overlays: seq<UIBase>,          // _SuperpositionUIList
    openUIs: seq<UIBase>,           // _OpenUiList
    dispatched: seq<Message>,       // MessageDispatcher.SendMessage calls
    loads: seq<LoadRequest>,        // ResourceManager.Load calls
    releases: multiset<string>)     // ResourceManager.Release calls

  /** The registry and its enumeration order agree, and every record is
      filed under its own uiTypeName. */
  ghost predicate RegistryOk(reg: map<string, UIBase>, ks: seq<string>) {
    && NoDups(ks)
    && (forall i :: 0 <= i < |ks| ==> ks[i] in reg)
    && (forall k :: k in reg ==> k in ks)
    && (forall k :: k in reg ==> reg[k].uiTypeName == k)
  }

  /** Only the top name of the stack list can still be registered, and a
      registered stack window is no overlay. */
  ghost predicate StackOk(st: seq<string>, reg: map<string, UIBase>, ov: seq<UIBase>) {
    && (forall i :: 0 <= i < |st| - 1 ==> st[i] !in reg)
    && (forall i :: 0 <= i < |st| && st[i] in reg ==> reg[st[i]] !in ov)
  }

  /** The invariant every public operation of the manager keeps. */
  ghost predicate Consistent(s: Snapshot) {
    && RegistryOk(s.registry, s.keys)
    && NoDups(s.stack) && NoDups(s.overlays) && NoDups(s.openUIs)
    && StackOk(s.stack, s.registry, s.overlays)
  }

  /** Consistent, with the stack shape required only of the names other
      than name: the state between registering a record and taking its name
      off the stack list. */
  ghost predicate ConsistentExcept(s: Snapshot, name: string) {
    && RegistryOk(s.registry, s.keys)
    && NoDups(s.stack) && NoDups(s.overlays) && NoDups(s.openUIs)
    && StackOk(Keep(s.stack, {name}), s.registry, s.overlays)
  }

  /** The record is the one filed under its own name. */
  predicate IsFiled(s: Snapshot, w: UIBase) {
    w.uiTypeName in s.registry && s.registry[w.uiTypeName] == w
  }

  /** The registry key of a record, as a set of at most one. */
  function Gone(c: UIBase?): set<string> {
    if c == null then {} else {c.uiTypeName}
  }

  /** A record as a set of at most one. */
  function Only(c: UIBase?): set<UIBase> {
    if c == null then {} else {c}
  }

  /** The record filed under the top name of a stack list, if there is one. */
  function TopOf(st: seq<string>, reg: map<string, UIBase>): (r: UIBase?)
    ensures r != null <==> |st| > 0 && st[|st| - 1] in reg
    ensures r != null ==> r == reg[st[|st| - 1]]
  {
    if |st| > 0 && st[|st| - 1] in reg then reg[st[|st| - 1]] else null
  }

  /** The record that opening the name as a window of tier t tears down:
      for a stack window, the record filed under the name that is on top of
      the stack list once the name itself is off it. */
  function CoveredIn(s: Snapshot, name: string, t: UIType): UIBase? {
    if t == StackUI then TopOf(Keep(s.stack, {name}), s.registry) else null
  }

  /** removeUIFromUIRoot(name): the name is unregistered; every list stays. */
  function Unfiled(s: Snapshot, name: string): Snapshot {
    s.(registry := s.registry - {name}, keys := Keep(s.keys, {name}))
  }

  /** DesUI(ui): the window leaves the openUIs list; a registered window is
      released and unregistered. (DesUI asks whether the registry holds the
      window anywhere; in a consistent registry that is IsFiled, see
      FiledUnderOwnName.) */
  function Dropped(s: Snapshot, ui: UIBase): Snapshot {
    var s1 := s.(openUIs := Keep(s.openUIs, {ui}));
    if IsFiled(s, ui)
    then Unfiled(s1, ui.uiTypeName).(releases := s.releases + multiset{ui.uiTypeName})
    else s1
  }

  /** The window's name leaves the stack list and the window the overlay list. */
  function Detached(s: Snapshot, ui: UIBase): Snapshot {
    s.(stack := Keep(s.stack, {ui.uiTypeName}), overlays := Keep(s.overlays, {ui}))
  }

  /** removeUI(ui): Detached, then DesUI. */
  function Removed(s: Snapshot, ui: UIBase): Snapshot {
    Dropped(Detached(s, ui), ui)
  }

  /** removeUI unregisters the window when it is filed, and nothing else. */
  lemma RemovedRegistry(s: Snapshot, ui: UIBase)
    ensures Removed(s, ui).registry == if IsFiled(s, ui) then s.registry - {ui.uiTypeName} else s.registry
  {
  }

  /** _registUI(name, w): whatever is filed under the name is unregistered
      and w is filed under it, last in enumeration order. */
  function Registered(s: Snapshot, name: string, w: UIBase): Snapshot {
    var u := Unfiled(s, name);
    u.(registry := u.registry[name := w], keys := u.keys + [name])
  }

  /** addUIToRoot for a UIBase class: the new component is registered and
      its prefab requested from the loader. */
  function Created(s: Snapshot, name: string, w: UIBase): Snapshot {
    Registered(s, name, w).(loads := s.loads + [LoadRequest(name, w)])
  }

  /** The switch of openUIInRoot on the record's tier t: an overlay joins the
      overlay list unless it is on it; a stack window's name is taken off the
      stack list, the record filed under the new top name is torn down
      (DesUI), and the name goes on top. */
  function Tiered(s: Snapshot, ui: UIBase, t: UIType): Snapshot {
    match t
    case SuperpositionUI =>
      if ui in s.overlays then s else s.(overlays := s.overlays + [ui])
    case StackUI =>
      var st := Remove(s.stack, ui.uiTypeName);
      var c := TopOf(st, s.registry);
      var u := s.(stack := st);
      (if c == null then u else Dropped(u, c)).(stack := st + [ui.uiTypeName])
    case _ => s
  }

  /** The last lines of openUIInRoot: the window joins the openUIs list unless
      it is on it, and a pending refresh (data) is sent to it. */
  function Shown(s: Snapshot, ui: UIBase, pending: bool, data: Payload?): Snapshot {
    s.(openUIs := if ui in s.openUIs then s.openUIs else s.openUIs + [ui],
       dispatched := if pending then s.dispatched + [Message(ui, Refresh, data)] else s.dispatched)
  }

  /** openUIInRoot from the list removals on, for the record ui of tier t
      with the given pending refresh. */
  function Placed(s: Snapshot, ui: UIBase, t: UIType, pending: bool, data: Payload?): Snapshot {
    Shown(Tiered(Detached(s, ui), ui, t), ui, pending, data)
  }

  /** The records filed under the given names. */
  function Records(reg: map<string, UIBase>, names: set<string>): set<UIBase> {
    set k | k in names && k in reg :: reg[k]
  }

  /** removeUI on each record filed under the given registered names, in any
      order. */
  function Purged(s: Snapshot, names: set<string>): Snapshot
    requires names <= s.registry.Keys
  {
    var gone := Records(s.registry, names);
    s.(registry := s.registry - names, keys := Keep(s.keys, names),
       stack := Keep(s.stack, names), overlays := Keep(s.overlays, gone),
       openUIs := Keep(s.openUIs, gone), releases := s.releases + multiset(names))
  }

  // ------------------------------------------------- lemmas on the registry

  /** A registered record is the one filed under its own name. */
  lemma FiledUnderOwnName(reg: map<string, UIBase>, ks: seq<string>, w: UIBase)
    requires RegistryOk(reg, ks) && w in reg.Values
    ensures w.uiTypeName in reg && reg[w.uiTypeName] == w
  {
    var k :| k in reg && reg[k] == w;
  }

  /** Unregistering a name keeps the registry consistent. */
  lemma RegistryRemove(reg: map<string, UIBase>, ks: seq<string>, k: string)
    requires RegistryOk(reg, ks)
    ensures RegistryOk(reg - {k}, Keep(ks, {k}))
  {
    KeepNoDups(ks, {k});
    var r := Keep(ks, {k});
    forall n | n in reg - {k} ensures n in r {
      KeepIn(ks, {k}, n);
    }
  }

  /** Registering a record under its own new name keeps the registry consistent. */
  lemma RegistryAdd(reg: map<string, UIBase>, ks: seq<string>, k: string, w: UIBase)
    requires RegistryOk(reg, ks) && k !in ks && w.uiTypeName == k
    ensures RegistryOk(reg[k := w], ks + [k])
  {
    AppendNoDups(ks, k);
  }

  /** Filtering the stack list, unregistering names and shrinking the
      overlay list keep the stack shape. */
  lemma {:induction false} StackShrink(st: seq<string>, reg: map<string, UIBase>, ov: seq<UIBase>,
                                       d: set<string>, e: set<string>, ov': seq<UIBase>)
    requires StackOk(st, reg, ov)
    requires forall i :: 0 <= i < |ov'| ==> ov'[i] in ov
    ensures StackOk(Keep(st, d), reg - e, ov')
  {
    if st != [] {
      StackShrink(st[1..], reg, ov, d, e, ov');
      var rest := Keep(st[1..], d);
      var r := Keep(st, d);
      if st[0] !in d {
        assert r == [st[0]] + rest;
        if |rest| > 0 {
          assert |st| > 1;
          assert st[0] !in reg;
        }
        forall i | 0 <= i < |r| && r[i] in reg - e ensures (reg - e)[r[i]] !in ov' {
          if i > 0 {
            assert r[i] == rest[i - 1];
          } else {
            assert st[0] == r[0] && reg[st[0]] !in ov;
          }
        }
      }
    }
  }

  /** Pushing a name whose record is no overlay onto a stack list whose top
      is unregistered keeps the stack shape. */
  lemma StackPush(st: seq<string>, reg: map<string, UIBase>, ov: seq<UIBase>, k: string)
    requires StackOk(st, reg, ov)
    requires |st| > 0 ==> st[|st| - 1] !in reg
    requires k in reg ==> reg[k] !in ov
    ensures StackOk(st + [k], reg, ov)
  {
    var r := st + [k];
    forall i | 0 <= i < |r| - 1 ensures r[i] !in reg {
      assert r[i] == st[i];
    }
    assert forall i :: 0 <= i < |st| ==> r[i] == st[i];
  }

  /** Below the top name of a consistent stack list nothing is registered, so
      re-opening the top name as a stack window tears nothing down. */
  lemma BelowTopUnfiled(st: seq<string>, reg: map<string, UIBase>, ov: seq<UIBase>)
    requires StackOk(st, reg, ov) && NoDups(st) && |st| > 0
    ensures TopOf(Keep(st, {st[|st| - 1]}), reg) == null
  {
    var r := Keep(st, {st[|st| - 1]});
    if |r| > 0 {
      var x := r[|r| - 1];
      assert x in st && x != st[|st| - 1];
      var i :| 0 <= i < |st| && st[i] == x;
      assert i < |st| - 1;
      assert st[i] !in reg;
    }
  }

  // ------------------------------------------------ lemmas on the snapshots

  /** The full invariant implies the one that exempts a name. */
  lemma Loosen(s: Snapshot, name: string)
    requires Consistent(s)
    ensures ConsistentExcept(s, name)
  {
    StackShrink(s.stack, s.registry, s.overlays, {name}, {}, s.overlays);
    assert s.registry - {} == s.registry;
  }

  /** removeUIFromUIRoot keeps the invariant, and the name is no longer
      registered. */
  lemma UnfiledConsistent(s: Snapshot, name: string)
    requires Consistent(s)
    ensures Consistent(Unfiled(s, name))
    ensures name !in Unfiled(s, name).registry && name !in Unfiled(s, name).keys
  {
    RegistryRemove(s.registry, s.keys, name);
    StackShrink(s.stack, s.registry, s.overlays, {}, {name}, s.overlays);
    KeepNothing(s.stack, {});
  }

  /** DesUI keeps the invariant, and afterwards the window is neither listed
      as opened nor registered; a registered window's name is released once. */
  lemma DroppedConsistent(s: Snapshot, ui: UIBase)
    requires Consistent(s)
    ensures var r := Dropped(s, ui);
      && Consistent(r) && ui !in r.openUIs && ui !in r.registry.Values
      && r.stack == s.stack && r.overlays == s.overlays
      && r.releases == s.releases + (if ui in s.registry.Values then multiset{ui.uiTypeName} else multiset{})
  {
    KeepNoDups(s.openUIs, {ui});
    var s1 := s.(openUIs := Keep(s.openUIs, {ui}));
    if ui in s.registry.Values {
      FiledUnderOwnName(s.registry, s.keys, ui);
    }
    if IsFiled(s, ui) {
      UnfiledConsistent(s1, ui.uiTypeName);
      var reg := s.registry - {ui.uiTypeName};
      forall k | k in reg ensures reg[k] != ui {
        assert reg[k].uiTypeName == k;
      }
    }
  }

  /** Taking a registered window off both tier lists restores the full
      invariant, even when its name was the exempted one. */
  lemma DetachedConsistent(s: Snapshot, ui: UIBase)
    requires ConsistentExcept(s, ui.uiTypeName)
    ensures var r := Detached(s, ui);
      Consistent(r) && ui.uiTypeName !in r.stack && ui !in r.overlays
  {
    KeepNoDups(s.stack, {ui.uiTypeName});
    KeepNoDups(s.overlays, {ui});
    var st := Keep(s.stack, {ui.uiTypeName});
    StackShrink(st, s.registry, s.overlays, {}, {}, Keep(s.overlays, {ui}));
    KeepNothing(st, {});
    assert s.registry - {} == s.registry;
  }

  /** Taking a window off the tier lists twice is taking it off once. */
  lemma DetachedTwice(s: Snapshot, ui: UIBase)
    ensures Detached(Detached(s, ui), ui) == Detached(s, ui)
  {
    KeepTwice(s.stack, {ui.uiTypeName}, {ui.uiTypeName});
    KeepTwice(s.overlays, {ui}, {ui});
    assert {ui.uiTypeName} + {ui.uiTypeName} == {ui.uiTypeName};
    assert {ui} + {ui} == {ui};
  }

  /** removeUI keeps the invariant and leaves the window on no list and
      unregistered. */
  lemma RemovedConsistent(s: Snapshot, ui: UIBase)
    requires Consistent(s)
    ensures var r := Removed(s, ui);
      && Consistent(r) && ui !in r.openUIs && ui !in r.registry.Values
      && ui.uiTypeName !in r.stack && ui !in r.overlays
  {
    Loosen(s, ui.uiTypeName);
    DetachedConsistent(s, ui);
    DroppedConsistent(Detached(s, ui), ui);
  }

  /** _registUI keeps the invariant, up to the stack shape of the name
      itself, and the record ends up filed under the name. */
  lemma RegisteredConsistent(s: Snapshot, name: string, w: UIBase)
    requires Consistent(s) && w.uiTypeName == name
    ensures ConsistentExcept(Registered(s, name, w), name) && IsFiled(Registered(s, name, w), w)
  {
    var u := Unfiled(s, name);
    UnfiledConsistent(s, name);
    RegistryAdd(u.registry, u.keys, name, w);
    var st := Keep(u.stack, {name});
    StackShrink(u.stack, u.registry, u.overlays, {name}, {}, u.overlays);
    assert u.registry - {} == u.registry;
    assert forall i :: 0 <= i < |st| ==> st[i] != name;
  }

  /** Filing a registered window that is on neither tier list keeps the
      invariant and the window registered. */
  lemma TieredConsistent(s: Snapshot, ui: UIBase, t: UIType)
    requires Consistent(s) && IsFiled(s, ui)
    requires ui.uiTypeName !in s.stack && ui !in s.overlays
    ensures Consistent(Tiered(s, ui, t)) && IsFiled(Tiered(s, ui, t), ui)
  {
    var name := ui.uiTypeName;
    match t {
      case SuperpositionUI =>
        AppendNoDups(s.overlays, ui);
        forall i | 0 <= i < |s.stack| && s.stack[i] in s.registry
          ensures s.registry[s.stack[i]] != ui
        {
          assert s.registry[s.stack[i]].uiTypeName == s.stack[i];
        }
      case StackUI =>
        var st := Remove(s.stack, name);
        assert st == s.stack;
        var c := TopOf(st, s.registry);
        var u := s.(stack := st);
        AppendNoDups(st, name);
        if c == null {
          StackPush(st, s.registry, s.overlays, name);
        } else {
          var top := st[|st| - 1];
          FiledUnderOwnName(s.registry, s.keys, c);
          DroppedConsistent(u, c);
          var d := Dropped(u, c);
          assert d.registry == s.registry - {top};
          StackPush(st, d.registry, d.overlays, name);
        }
      case _ =>
    }
  }

  /** Listing a window as opened keeps the invariant. */
  lemma ShownConsistent(s: Snapshot, ui: UIBase, pending: bool, data: Payload?)
    requires Consistent(s)
    ensures Consistent(Shown(s, ui, pending, data)) && ui in Shown(s, ui, pending, data).openUIs
  {
    if ui !in s.openUIs {
      AppendNoDups(s.openUIs, ui);
    }
  }

  /** The stack case of the tier switch, stated outright: the record filed
      under the top stack name is unregistered, released and taken off the
      openUIs list, and the name goes on top. */
  lemma TieredStack(s: Snapshot, ui: UIBase)
    requires Consistent(s) && IsFiled(s, ui)
    requires ui.uiTypeName !in s.stack
    ensures var r := Tiered(s, ui, StackUI);
      var c := TopOf(s.stack, s.registry);
      && c != ui
      && r.registry == s.registry - Gone(c)
      && r.keys == Keep(s.keys, Gone(c))
      && r.releases == s.releases + multiset(Gone(c))
      && r.openUIs == Keep(s.openUIs, Only(c))
      && r.stack == s.stack + [ui.uiTypeName] && r.overlays == s.overlays
      && r.dispatched == s.dispatched && r.loads == s.loads
  {
    var c := TopOf(s.stack, s.registry);
    assert Remove(s.stack, ui.uiTypeName) == s.stack;
    if c == null {
      KeepNothing(s.keys, {});
      KeepNothing(s.openUIs, {});
      assert s.registry - {} == s.registry;
    } else {
      FiledUnderOwnName(s.registry, s.keys, c);
      assert c.uiTypeName == s.stack[|s.stack| - 1];
    }
  }

  /** The tier switch of openUIInRoot, stated outright: the covered record c
      (the one filed under the top stack name, for a stack window) is
      unregistered, released and taken off the openUIs list, and the record
      goes last on its tier's list. */
  lemma TieredFacts(s: Snapshot, ui: UIBase, t: UIType)
    requires Consistent(s) && IsFiled(s, ui)
    requires ui.uiTypeName !in s.stack && ui !in s.overlays
    ensures var r := Tiered(s, ui, t);
      var c := if t == StackUI then TopOf(s.stack, s.registry) else null;
      && c != ui
      && r.registry == s.registry - Gone(c)
      && r.keys == Keep(s.keys, Gone(c))
      && r.releases == s.releases + multiset(Gone(c))
      && r.openUIs == Keep(s.openUIs, Only(c))
      && r.stack == s.stack + (if t == StackUI then [ui.uiTypeName] else [])
      && r.overlays == s.overlays + (if t == SuperpositionUI then [ui] else [])
      && r.dispatched == s.dispatched && r.loads == s.loads
  {
    if t == StackUI {
      TieredStack(s, ui);
    } else {
      KeepNothing(s.keys, {});
      KeepNothing(s.openUIs, {});
      assert s.registry - {} == s.registry;
    }
  }

  /** openUIInRoot restores the invariant and keeps the record filed. */
  lemma PlacedConsistent(s: Snapshot, ui: UIBase, t: UIType, pending: bool, data: Payload?)
    requires ConsistentExcept(s, ui.uiTypeName) && IsFiled(s, ui)
    ensures Consistent(Placed(s, ui, t, pending, data)) && IsFiled(Placed(s, ui, t, pending, data), ui)
  {
    var s1 := Detached(s, ui);
    DetachedConsistent(s, ui);
    TieredConsistent(s1, ui, t);
    ShownConsistent(Tiered(s1, ui, t), ui, pending, data);
  }

  /** The record an open tears down is filed, and is never the record being
      opened. */
  lemma CoveredOther(s: Snapshot, ui: UIBase, t: UIType)
    requires ConsistentExcept(s, ui.uiTypeName) && IsFiled(s, ui)
    ensures var c := CoveredIn(s, ui.uiTypeName, t); c != ui && (c != null ==> IsFiled(s, c))
  {
    var st := Keep(s.stack, {ui.uiTypeName});
    if t == StackUI && |st| > 0 {
      assert st[|st| - 1] != ui.uiTypeName;
    }
  }

  /** What openUIInRoot does to the registry, stated outright: the covered
      record (CoveredIn) is unregistered and released, and nothing is loaded. */
  lemma PlacedRegistry(s: Snapshot, ui: UIBase, t: UIType, pending: bool, data: Payload?)
    requires ConsistentExcept(s, ui.uiTypeName) && IsFiled(s, ui)
    ensures var r := Placed(s, ui, t, pending, data);
      var c := CoveredIn(s, ui.uiTypeName, t);
      && c != ui
      && r.registry == s.registry - Gone(c)
      && r.keys == Keep(s.keys, Gone(c))
      && r.releases == s.releases + multiset(Gone(c))
      && r.loads == s.loads
  {
    DetachedConsistent(s, ui);
    TieredFacts(Detached(s, ui), ui, t);
  }

  /** What openUIInRoot does to the openUIs list and the messages, stated
      outright: the covered record leaves the list, the record joins it
      unless it is on it, and a pending refresh is sent to the record. */
  lemma PlacedOpened(s: Snapshot, ui: UIBase, t: UIType, pending: bool, data: Payload?)
    requires ConsistentExcept(s, ui.uiTypeName) && IsFiled(s, ui)
    ensures var r := Placed(s, ui, t, pending, data);
      var c := CoveredIn(s, ui.uiTypeName, t);
      && r.openUIs == Keep(s.openUIs, Only(c)) + (if ui in s.openUIs then [] else [ui])
      && r.dispatched == s.dispatched + (if pending then [Message(ui, Refresh, data)] else [])
  {
    DetachedConsistent(s, ui);
    TieredFacts(Detached(s, ui), ui, t);
    KeepIn(s.openUIs, Only(CoveredIn(s, ui.uiTypeName, t)), ui);
  }

  /** What openUIInRoot does to the tier lists, stated outright: the name
      goes on top of the stack list for a stack window, an overlay goes last
      on the overlay list, and otherwise the record is off both. */
  lemma PlacedLists(s: Snapshot, ui: UIBase, t: UIType, pending: bool, data: Payload?)
    requires ConsistentExcept(s, ui.uiTypeName) && IsFiled(s, ui)
    ensures var r := Placed(s, ui, t, pending, data);
      && r.stack == Keep(s.stack, {ui.uiTypeName}) + (if t == StackUI then [ui.uiTypeName] else [])
      && r.overlays == Keep(s.overlays, {ui}) + (if t == SuperpositionUI then [ui] else [])
  {
    DetachedConsistent(s, ui);
    TieredFacts(Detached(s, ui), ui, t);
  }

  /** After an open the record is on the openUIs list exactly once; a stack
      window's name is on the stack list exactly once, on top; an overlay is
      on the overlay list exactly once; any other window's name is off the
      stack list. */
  lemma PlacedOnce(s: Snapshot, ui: UIBase, t: UIType, pending: bool, data: Payload?)
    requires ConsistentExcept(s, ui.uiTypeName) && IsFiled(s, ui)
    ensures var r := Placed(s, ui, t, pending, data);
      && multiset(r.openUIs)[ui] == 1
      && (t == StackUI ==> multiset(r.stack)[ui.uiTypeName] == 1 && r.stack[|r.stack| - 1] == ui.uiTypeName)
      && (t == SuperpositionUI ==> multiset(r.overlays)[ui] == 1)
      && (t != StackUI ==> ui.uiTypeName !in r.stack)
  {
    var s1 := Detached(s, ui);
    DetachedConsistent(s, ui);
    TieredConsistent(s1, ui, t);
    ShownConsistent(Tiered(s1, ui, t), ui, pending, data);
    PlacedLists(s, ui, t, pending, data);
    var r := Placed(s, ui, t, pending, data);
    OnceIfNoDups(r.openUIs, ui);
    if t == StackUI {
      OnceIfNoDups(r.stack, ui.uiTypeName);
    } else {
      KeepIn(s.stack, {ui.uiTypeName}, ui.uiTypeName);
    }
    if t == SuperpositionUI {
      OnceIfNoDups(r.overlays, ui);
    }
  }

  /** Registering a new record under the name does not change which record
      opening the name covers. */
  lemma CreatedCovered(s: Snapshot, name: string, w: UIBase, t: UIType)
    ensures CoveredIn(Created(s, name, w), name, t) == CoveredIn(s, name, t)
  {
    var st := Keep(s.stack, {name});
    if |st| > 0 {
      assert st[|st| - 1] != name;
    }
  }

  /** The collections after openUIInRoot(top, StackUI) on the name on top of
      the stack list below: the record w found under it is placed; failing
      that, the record created for it is registered and placed; failing that,
      only a load may have been asked for. */
  function ReopenedTop(below: Snapshot, w: UIBase?, pending: bool, data: Payload?, created: UIBase?, load: bool): Snapshot {
    var st := below.stack;
    if st == [] then below
    else if w != null then Placed(below, w, StackUI, pending, data)
    else if created != null then Placed(Created(below, st[|st| - 1], created), created, StackUI, false, null)
    else below.(loads := below.loads + if load then [LoadRequest(st[|st| - 1], null)] else [])
  }

  /** An open that tears nothing down leaves the registry, its key order
      and the releases as they are. */
  lemma PlacedUncovered(s: Snapshot, ui: UIBase, t: UIType, pending: bool, data: Payload?)
    requires CoveredIn(s, ui.uiTypeName, t) == null
    ensures var r := Placed(s, ui, t, pending, data);
      r.registry == s.registry && r.keys == s.keys && r.releases == s.releases
  {
    var st := Keep(s.stack, {ui.uiTypeName});
    assert ui.uiTypeName !in st;
    assert Remove(st, ui.uiTypeName) == st;
  }

  /** Closing a stack window while the name it leaves on top of the stack
      list is re-opened (as the record w, found or new) leaves that name on
      top and filed under w, and the closed window on no list and
      unregistered. */
  lemma ReopenBelow(s: Snapshot, ui: UIBase, below: Snapshot, w: UIBase, pending: bool, data: Payload?)
    requires Consistent(s) && IsFiled(s, ui)
    requires below.stack == Keep(s.stack, {ui.uiTypeName}) && |below.stack| > 0
    requires w.uiTypeName == below.stack[|below.stack| - 1]
    requires ConsistentExcept(below, w.uiTypeName) && IsFiled(below, w)
    requires below.registry - {w.uiTypeName} == s.registry - {w.uiTypeName}
    ensures var m := Placed(below, w, StackUI, pending, data);
      var r := Removed(m, ui);
      && CoveredIn(below, w.uiTypeName, StackUI) == null
      && IsFiled(m, ui) && Consistent(r)
      && r.stack == below.stack && IsFiled(r, w)
      && ui !in r.openUIs && ui !in r.registry.Values && ui !in r.overlays
  {
    var top := w.uiTypeName;
    var rest := below.stack;
    var reg := s.registry - {top};
    assert ui.uiTypeName !in rest;
    StackShrink(s.stack, s.registry, s.overlays, {ui.uiTypeName}, {}, s.overlays);
    assert s.registry - {} == s.registry;
    KeepNoDups(s.stack, {ui.uiTypeName});
    BelowTopUnfiled(rest, s.registry, s.overlays);
    var st := Keep(rest, {top});
    if |st| > 0 {
      var x := st[|st| - 1];
      assert x != top && x !in s.registry;
      assert x !in reg;
    }
    assert ui.uiTypeName in reg;
    PlacedConsistent(below, w, StackUI, pending, data);
    PlacedRegistry(below, w, StackUI, pending, data);
    PlacedLists(below, w, StackUI, pending, data);
    PlacedOpened(below, w, StackUI, pending, data);
    var m := Placed(below, w, StackUI, pending, data);
    KeepDropsLast(rest);
    RemovedConsistent(m, ui);
    KeepNothing(rest, {ui.uiTypeName});
  }

  /** Taking a window off one tier list keeps the invariant. */
  lemma ListsShrink(s: Snapshot, ui: UIBase)
    requires Consistent(s)
    ensures Consistent(s.(stack := Keep(s.stack, {ui.uiTypeName})))
    ensures Consistent(s.(overlays := Keep(s.overlays, {ui})))
  {
    KeepNoDups(s.stack, {ui.uiTypeName});
    KeepNoDups(s.overlays, {ui});
    StackShrink(s.stack, s.registry, s.overlays, {ui.uiTypeName}, {}, s.overlays);
    StackShrink(s.stack, s.registry, s.overlays, {}, {}, Keep(s.overlays, {ui}));
    KeepNothing(s.stack, {});
    assert s.registry - {} == s.registry;
  }

  /** Taking a window off the tier lists absorbs an earlier removal from
      either of them. */
  lemma DetachedAfter(s: Snapshot, ui: UIBase)
    ensures Detached(s.(stack := Keep(s.stack, {ui.uiTypeName})), ui) == Detached(s, ui)
    ensures Detached(s.(overlays := Keep(s.overlays, {ui})), ui) == Detached(s, ui)
  {
    KeepTwice(s.stack, {ui.uiTypeName}, {ui.uiTypeName});
    KeepTwice(s.overlays, {ui}, {ui});
    assert {ui.uiTypeName} + {ui.uiTypeName} == {ui.uiTypeName};
    assert {ui} + {ui} == {ui};
  }

  /** The names of the records, given their fields by name, that are
      active and destroyed on a scene switch. */
  function SceneBound(st: map<string, UIState>): set<string> {
    set k | k in st && st[k].isActive && st[k].switchSceneDestroy
  }

  /** The names of the records, given their fields by name, whose type is
      not t. */
  function OfOtherType(st: map<string, UIState>, t: UIType): set<string> {
    set k | k in st && st[k].uiType != t
  }

  /** The names of ks that are in sel: those a teardown loop that has gone
      through ks has removed. */
  function Chosen(ks: seq<string>, sel: set<string>): (r: set<string>)
    ensures r <= sel
  {
    if ks == [] then {}
    else Chosen(ks[..|ks| - 1], sel) + (if ks[|ks| - 1] in sel then {ks[|ks| - 1]} else {})
  }

  /** A name is chosen exactly when it is listed and selected. */
  lemma {:induction false} ChosenIn(ks: seq<string>, sel: set<string>, x: string)
    ensures x in Chosen(ks, sel) <==> x in ks && x in sel
  {
    if ks != [] {
      var n := |ks| - 1;
      ChosenIn(ks[..n], sel, x);
      assert ks == ks[..n] + [ks[n]];
    }
  }

  /** One more step of a teardown loop chooses the next name if it is
      selected. */
  lemma ChosenStep(ks: seq<string>, sel: set<string>, i: nat)
    requires i < |ks|
    ensures Chosen(ks[..i + 1], sel) == Chosen(ks[..i], sel) + (if ks[i] in sel then {ks[i]} else {})
  {
    assert ks[..i + 1][..i] == ks[..i];
  }

  /** A loop that has gone through a list holding every selected name has
      chosen them all. */
  lemma ChosenAll(ks: seq<string>, sel: set<string>)
    requires forall k :: k in sel ==> k in ks
    ensures Chosen(ks, sel) == sel
  {
    forall x | x in sel ensures x in Chosen(ks, sel) {
      ChosenIn(ks, sel, x);
    }
  }

  /** The fields of a record after removeUI, preceded by SetUIActive(false)
      when deactivate holds. */
  function TornDown(st: UIState, deactivate: bool): (r: UIState)
    ensures r.destroyed && r.commonUIs == [] && (deactivate ==> !r.isActive)
  {
    st.(isActive := st.isActive && !deactivate, commonUIs := [], destroyed := true)
  }

  /** Purging registered names keeps the invariant. */
  lemma PurgedConsistent(s: Snapshot, names: set<string>)
    requires Consistent(s) && names <= s.registry.Keys
    ensures Consistent(Purged(s, names))
  {
    var r := Purged(s, names);
    KeepNoDups(s.keys, names);
    KeepNoDups(s.stack, names);
    KeepNoDups(s.overlays, Records(s.registry, names));
    KeepNoDups(s.openUIs, Records(s.registry, names));
    forall k | k in r.registry ensures k in r.keys {
      KeepIn(s.keys, names, k);
    }
    StackShrink(s.stack, s.registry, s.overlays, names, names, r.overlays);
  }

  /** Purging no names changes nothing. */
  lemma PurgedNone(s: Snapshot)
    ensures Purged(s, {}) == s
  {
    KeepNothing(s.keys, {});
    KeepNothing(s.stack, {});
    assert Records(s.registry, {}) == {};
    KeepNothing(s.overlays, {});
    KeepNothing(s.openUIs, {});
    assert s.registry - {} == s.registry;
  }

  /** Removing one more registered record is purging one more name: the
      loops of the teardown operations compute Purged. */
  lemma PurgedStep(s: Snapshot, done: set<string>, k: string)
    requires Consistent(s) && done <= s.registry.Keys && k in s.registry && k !in done
    ensures Removed(Purged(s, done), s.registry[k]) == Purged(s, done + {k})
  {
    var p := Purged(s, done);
    var w := s.registry[k];
    var gone := Records(s.registry, done);
    assert w.uiTypeName == k;
    assert Records(s.registry, done + {k}) == gone + {w};
    KeepTwice(s.keys, done, {k});
    KeepTwice(s.stack, done, {k});
    KeepTwice(s.overlays, gone, {w});
    KeepTwice(s.openUIs, gone, {w});
    assert IsFiled(Detached(p, w), w);
    assert s.registry - done - {k} == s.registry - (done + {k});
    assert multiset(done) + multiset{k} == multiset(done + {k});
  }

  /** Removing every registered record empties the registry and its key
      order, and takes every registered record off the openUIs list. */
  lemma PurgedAll(s: Snapshot)
    requires Consistent(s)
    ensures var r := Purged(s, s.registry.Keys);
      r.registry == map[] && r.keys == [] && r.openUIs == Keep(s.openUIs, s.registry.Values)
  {
    var r := Keep(s.keys, s.registry.Keys);
    if r != [] {
      KeepIn(s.keys, s.registry.Keys, r[0]);
      assert false;
    }
    assert Records(s.registry, s.registry.Keys) == s.registry.Values;
  }
}
