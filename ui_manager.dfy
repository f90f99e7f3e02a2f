/** UISystem.UIManager: the window registry and layering engine. Every
    operation is proved against the function of ManagerState that gives
    its effect on the manager's collections. */
module UIManagerCore {
  import opened Lists
  import opened UITypes
  import opened UIWindow
  import opened ManagerState

  class UIManager {
    /** _mdicUIUnderRoot: window records by registry key */
    var registry: map<string, UIBase>
    /** the enumeration order of the registry's keys (insertion order) */
    var keys: seq<string>
    /** _StackUIList: stack-tier names, the last one on top */
    var stack: seq<string>
    /** _SuperpositionUIList: overlay-tier windows */
    var overlays: seq<UIBase>
    /** _OpenUiList: the windows listed as opened */
    var openUIs: seq<UIBase>
    /** _CommonUIList: preloaded common-UI objects by resource path */
    var commonUI: map<string, Prefab>
    /** the classes System.Type.GetType resolves, by class name */
    const classes: map<string, ClassInfo>
    /** every message sent through MessageDispatcher, in order */
    var dispatched: seq<Message>
    /** every ResourceManager.Load call, in order */
    var loads: seq<LoadRequest>
    /** the names passed to ResourceManager.Release */
    var releases: multiset<string>

    /** The manager at start-up: nothing registered, nothing cached. */
    constructor (classes: map<string, ClassInfo>)
      ensures Valid() && this.classes == classes && commonUI == map[]
      ensures Snap() == Snapshot(map[], [], [], [], [], [], [], multiset{})
    {
      this.classes := classes;
      registry, keys, stack, overlays, openUIs := map[], [], [], [], [];
      commonUI, dispatched, loads, releases := map[], [], [], multiset{};
    }

    /** The manager's collections and logged effects as one value. */
    ghost function Snap(): Snapshot
      reads this`registry, this`keys, this`stack, this`overlays, this`openUIs,
        this`dispatched, this`loads, this`releases
    {
      Snapshot(registry, keys, stack, overlays, openUIs, dispatched, loads, releases)
    }

    /** The invariant every public operation keeps. */
    ghost predicate Valid()
      reads this`registry, this`keys, this`stack, this`overlays, this`openUIs,
        this`dispatched, this`loads, this`releases
    {
      Consistent(Snap())
    }

    /** Valid(), except for the stack shape of the given name. */
    ghost predicate ValidExcept(name: string)
      reads this`registry, this`keys, this`stack, this`overlays, this`openUIs,
        this`dispatched, this`loads, this`releases
    {
      ConsistentExcept(Snap(), name)
    }

    /** The record filed under the name, as a set of at most one. */
    function FiledAs(name: string): set<UIBase>
      reads this`registry
    {
      if name in registry then {registry[name]} else {}
    }

    // ---------------------------------------------------------------- order

    /** The order GetCanvasOder reads for a stack-list name: 0 once the name
        is no longer registered. */
    function StackOrder(name: string): int
      reads this`registry, registry.Values`order
    {
      if name in registry then registry[name].order else 0
    }

    /** The orders GetCanvasOder collects from a stack list. */
    ghost function StackOrders(names: seq<string>): (r: seq<int>)
      reads this`registry, registry.Values`order
      ensures |r| == |names|
    {
      if names == [] then [] else [StackOrder(names[0])] + StackOrders(names[1..])
    }

    /** Entry i of StackOrders is the order of the i-th name. */
    lemma {:induction false} StackOrdersAt(names: seq<string>)
      ensures forall i :: 0 <= i < |names| ==> StackOrders(names)[i] == StackOrder(names[i])
    {
      if names != [] {
        StackOrdersAt(names[1..]);
      }
    }

    /** The orders GetCanvasOder collects from an overlay list. */
    ghost function OverlayOrders(ws: seq<UIBase>): (r: seq<int>)
      reads ws`order
      ensures |r| == |ws|
    {
      if ws == [] then [] else [ws[0].order] + OverlayOrders(ws[1..])
    }

    /** Entry i of OverlayOrders is the order of the i-th record. */
    lemma {:induction false} OverlayOrdersAt(ws: seq<UIBase>)
      ensures forall i :: 0 <= i < |ws| ==> OverlayOrders(ws)[i] == ws[i].order
    {
      if ws != [] {
        OverlayOrdersAt(ws[1..]);
      }
    }

    /** What GetCanvasOder returns for tier t in the current state. */
    ghost function CanvasOrder(t: UIType): int
      reads this`registry, this`stack, this`overlays, registry.Values`order, overlays`order
    {
      TierOrder(t, StackOrders(stack), OverlayOrders(overlays))
    }

    /** GetCanvasOder: Mathf.Max over the orders of the tier's windows plus
        the margin, or the tier's enum value when the tier is empty or does
        not accumulate. */
    method GetCanvasOder(rType: UIType) returns (curUIOrder: int)
      ensures curUIOrder == CanvasOrder(rType)
    {
      curUIOrder := TypeValue(rType);
      match rType {
        case SuperpositionUI =>
          var canvasSuperArr := new int[|overlays|](_ => 0);
          for i := 0 to |overlays|
            invariant forall j :: 0 <= j < i ==> canvasSuperArr[j] == overlays[j].order
          {
            canvasSuperArr[i] := overlays[i].order;
          }
          OverlayOrdersAt(overlays);
          assert canvasSuperArr[..] == OverlayOrders(overlays);
          if canvasSuperArr.Length > 0 {
            curUIOrder := MaxOf(canvasSuperArr[..]) + Margin;
          }
        case StackUI =>
          var canvasStackArr := new int[|stack|](_ => 0);
          for i := 0 to |stack|
            invariant forall j :: 0 <= j < i ==> canvasStackArr[j] == StackOrder(stack[j])
            invariant forall j :: i <= j < |stack| ==> canvasStackArr[j] == 0
          {
            if stack[i] in registry {
              canvasStackArr[i] := registry[stack[i]].order;
            }
          }
          StackOrdersAt(stack);
          assert canvasStackArr[..] == StackOrders(stack);
          if canvasStackArr.Length > 0 {
            curUIOrder := MaxOf(canvasStackArr[..]) + Margin;
          }
        case _ =>
      }
    }

    /** The order freshCanvasOder gives the record filed under the name as a
        window of tier t when the stack list is st: GetCanvasOder once the
        name is off st and the record off the overlay list. */
    ghost function OrderFrom(st: seq<string>, name: string, t: UIType): int
      reads this`registry, this`overlays, registry.Values`order, overlays`order
    {
      TierOrder(t, StackOrders(Keep(st, {name})), OverlayOrders(Keep(overlays, FiledAs(name))))
    }

    /** The order opening the name as a window of tier t gives its record. */
    ghost function OrderOnOpen(name: string, t: UIType): int
      reads this`registry, this`stack, this`overlays, registry.Values`order, overlays`order
    {
      OrderFrom(stack, name, t)
    }

    // -------------------------------------------------------------- lookups

    /** The first record, in the enumeration order ks, whose GameObject is
        named n; null when there is none. */
    function FirstNamed(ks: seq<string>, n: string): (r: UIBase?)
      reads this`registry
      ensures r != null ==> r in registry.Values && r.objName == n
    {
      if ks == [] then null
      else if ks[0] in registry && registry[ks[0]].objName == n then registry[ks[0]]
      else FirstNamed(ks[1..], n)
    }

    /** FirstNamed finds a record named n filed under one of the keys ks, and
        finds none only when no such record exists. */
    lemma {:induction false} FirstNamedSpec(ks: seq<string>, n: string)
      ensures var r := FirstNamed(ks, n);
        && (r == null ==> forall i :: 0 <= i < |ks| && ks[i] in registry ==> registry[ks[i]].objName != n)
        && (r != null ==> exists i :: 0 <= i < |ks| && ks[i] in registry && r == registry[ks[i]] && r.objName == n)
    {
      if ks != [] && !(ks[0] in registry && registry[ks[0]].objName == n) {
        FirstNamedSpec(ks[1..], n);
        assert forall i :: 1 <= i < |ks| ==> ks[i] == ks[1..][i - 1];
        var r := FirstNamed(ks[1..], n);
        if r != null {
          var j :| 0 <= j < |ks[1..]| && ks[1..][j] in registry && r == registry[ks[1..][j]] && r.objName == n;
          assert ks[j + 1] == ks[1..][j];
        }
      }
    }

    /** What _getUIUnderRoot<T> returns for the class named typeName. */
    function UIUnderRoot(typeName: string): (r: UIBase?)
      reads this`registry, this`keys
      ensures r != null ==> r in registry.Values && r.typeName == typeName
      ensures typeName in registry ==> r == Cast(registry[typeName], typeName)
      ensures typeName !in registry && r != null ==> r.objName == typeName
    {
      if typeName in registry then Cast(registry[typeName], typeName)
      else Cast(FirstNamed(keys, typeName), typeName)
    }

    /** The lookup finds nothing when no record is filed under the class name
        and no registered GameObject carries it. */
    lemma UIUnderRootNone(typeName: string)
      requires Valid() && typeName !in registry
      requires forall k :: k in registry ==> registry[k].objName != typeName
      ensures UIUnderRoot(typeName) == null
    {
      FirstNamedSpec(keys, typeName);
    }

    /** Once nothing is filed under the class name, the lookup falls back to
        a record filed under another name whose GameObject carries the class
        name. So after closeUIInRoot<T> has closed the record filed under the
        class name, a second close of T closes such a record, when it is
        active, instead of doing nothing (CloseUIInRoot). */
    lemma LookupFallsBack(typeName: string, b: UIBase)
      requires Valid() && typeName !in registry
      requires b in registry.Values && b.objName == typeName && b.typeName == typeName
      requires forall k :: k in registry && registry[k].objName == typeName ==> registry[k] == b
      ensures UIUnderRoot(typeName) == b
    {
      FiledUnderOwnName(registry, keys, b);
      var i :| 0 <= i < |keys| && keys[i] == b.uiTypeName;
      FirstNamedSpec(keys, typeName);
    }

    /** The set holding UIUnderRoot(typeName), if it is not null. */
    function UnderRootSet(typeName: string): set<UIBase>
      reads this`registry, this`keys
    {
      Only(UIUnderRoot(typeName))
    }

    /** _getUIUnderRoot<T>: the record filed under the class name; failing
        that, the first record, in enumeration order, whose GameObject
        carries the class name; either way cast to the class. */
    method GetUIUnderRoot(typeName: string) returns (r: UIBase?)
      requires Valid()
      ensures r == UIUnderRoot(typeName)
    {
      var uiobj: UIBase? := if typeName in registry then registry[typeName] else null;
      if uiobj == null {
        var dataList := keys;
        for i := 0 to |dataList|
          invariant forall j :: 0 <= j < i ==> registry[dataList[j]].objName != typeName
        {
          if registry[dataList[i]].objName == typeName {
            uiobj := registry[dataList[i]];
            assert FirstNamed(keys, typeName) == uiobj by {
              FirstNamedAt(keys, typeName, i);
            }
            return Cast(uiobj, typeName);
          }
        }
      }
      r := Cast(uiobj, typeName);
    }

    /** FirstNamed finds the first key whose record carries the name. */
    lemma {:induction false} FirstNamedAt(ks: seq<string>, n: string, i: nat)
      requires i < |ks| && ks[i] in registry && registry[ks[i]].objName == n
      requires forall j :: 0 <= j < i && ks[j] in registry ==> registry[ks[j]].objName != n
      ensures FirstNamed(ks, n) == registry[ks[i]]
    {
      if i > 0 {
        assert forall j :: 0 <= j < |ks| - 1 ==> ks[1..][j] == ks[j + 1];
        FirstNamedAt(ks[1..], n, i - 1);
      }
    }

    /** A record is filed under the name and its GameObject is active. An
        open that finds or creates a record makes this true of the name it
        files (OpenActivates), and a close makes it false of the name of the
        window it closes (CloseUIInRoot). */
    predicate TargetActive(name: string)
      reads this`registry, registry.Values`isActive
    {
      name in registry && registry[name].isActive
    }

    /** checkTargetUIActive(name): whether the window filed under the name is
        open, in the sense of TargetActive. */
    method CheckTargetUIActive(typeName: string) returns (active: bool)
      ensures active == TargetActive(typeName)
    {
      active := typeName in registry && registry[typeName].isActive;
    }

    /** GetTargetUI<T>: the record filed under the class name, provided its
        content is loaded and it is of that class; null otherwise. */
    function GetTargetUI(typeName: string): (r: UIBase?)
      reads this`registry, registry.Values`showUILoaded
      ensures r != null <==> typeName in registry && registry[typeName].showUILoaded &&
                             registry[typeName].typeName == typeName
      ensures r != null ==> r == registry[typeName]
    {
      if typeName !in registry then null
      else if !registry[typeName].showUILoaded then null
      else Cast(registry[typeName], typeName)
    }

    /** GetTargetUI agrees with the lookup of _getUIUnderRoot<T>: whatever it
        finds is what that lookup finds, and when the lookup finds a loaded
        record filed under the class name, GetTargetUI finds it too. */
    lemma TargetUIAgrees(typeName: string)
      ensures GetTargetUI(typeName) != null ==> UIUnderRoot(typeName) == GetTargetUI(typeName)
      ensures var u := UIUnderRoot(typeName);
        u != null && typeName in registry && u.showUILoaded ==> GetTargetUI(typeName) == u
    {
    }

    /** getTopUI's answer when it returns the window at index k of the
        openUIs list: a candidate with positive order, as high as every other
        candidate and strictly higher than every earlier one. */
    ghost predicate TopAt(k: int)
      reads this`openUIs, openUIs`destroyed, openUIs`isActive, openUIs`uiType, openUIs`order
    {
      && 0 <= k < |openUIs|
      && TopCandidate(openUIs[k]) && openUIs[k].order > 0
      && (forall j :: 0 <= j < |openUIs| && TopCandidate(openUIs[j]) ==> openUIs[j].order <= openUIs[k].order)
      && (forall j :: 0 <= j < k && TopCandidate(openUIs[j]) ==> openUIs[j].order < openUIs[k].order)
    }

    /** getTopUI: the earliest openUIs stack or overlay window of highest
        positive order; null when no candidate has a positive order. */
    method GetTopUI() returns (topUI: UIBase?)
      ensures topUI == null <==>
        forall j :: 0 <= j < |openUIs| && TopCandidate(openUIs[j]) ==> openUIs[j].order <= 0
      ensures topUI != null ==> exists k :: TopAt(k) && openUIs[k] == topUI
    {
      var maxOder := 0;
      topUI := null;
      ghost var k := -1;
      for i := 0 to |openUIs|
        invariant topUI == null <==>
          forall j :: 0 <= j < i && TopCandidate(openUIs[j]) ==> openUIs[j].order <= 0
        invariant topUI == null ==> maxOder == 0
        invariant topUI != null ==> 0 <= k < i && openUIs[k] == topUI && maxOder == topUI.order
        invariant topUI != null ==> TopCandidate(topUI) && topUI.order > 0
        invariant topUI != null ==> forall j :: 0 <= j < i && TopCandidate(openUIs[j]) ==> openUIs[j].order <= maxOder
        invariant topUI != null ==> forall j :: 0 <= j < k && TopCandidate(openUIs[j]) ==> openUIs[j].order < maxOder
      {
        var ui := openUIs[i];
        if TopCandidate(ui) {
          if ui.order > maxOder {
            maxOder := ui.order;
            topUI := ui;
            k := i;
          }
        }
      }
      if topUI != null {
        assert TopAt(k);
      }
    }

    // ------------------------------------------------------------- removal

    /** SetUIActive: sets the record's flag and its GameObject's active state. */
    method SetUIActive(rUI: UIBase, rActive: bool)
      modifies rUI`isActive
      ensures rUI.isActive == rActive
    {
      rUI.isActive := rActive;
    }

    /** removeUIFromUIRoot: destroys the record filed under the name and
        unregisters it, leaving every list as it is. */
    method RemoveUIFromUIRoot(uiname: string)
      requires Valid()
      modifies this`registry, this`keys, FiledAs(uiname)`destroyed
      ensures Valid() && Snap() == Unfiled(old(Snap()), uiname)
      ensures uiname in old(registry) ==>
        old(registry[uiname]).State() == old(registry[uiname].State()).(destroyed := true)
    {
      RemoveIsKeep(keys, uiname);
      assert uiname !in registry ==> uiname !in keys;
      UnfiledConsistent(Snap(), uiname);
      Unregister(uiname);
    }

    /** The lines of removeUIFromUIRoot, for a key order without duplicates
        that holds the name only when it is registered. */
    method Unregister(uiname: string)
      requires uiname !in registry ==> uiname !in keys
      requires Remove(keys, uiname) == Keep(keys, {uiname})
      modifies this`registry, this`keys, FiledAs(uiname)`destroyed
      ensures Snap() == Unfiled(old(Snap()), uiname)
      ensures uiname in old(registry) ==>
        old(registry[uiname]).State() == old(registry[uiname].State()).(destroyed := true)
    {
      if uiname in registry {
        var w := registry[uiname];
        // OnAutoRelease() is a hook of the window, outside this model
        w.destroyed := true;
        registry := registry - {uiname};
        keys := Remove(keys, uiname);
      } else {
        assert registry - {uiname} == registry;
      }
    }

    /** DesUI: drops the window from the openUIs list; a registered window
        also loses its common sub-windows, its resource is released and it is
        unregistered; either way its GameObject is destroyed. */
    method DesUI(ui: UIBase)
      requires Valid()
      modifies this`openUIs, this`registry, this`keys, this`releases, ui`commonUIs, ui`destroyed
      ensures Valid() && Snap() == Dropped(old(Snap()), ui)
      ensures ui.destroyed && ui.commonUIs == if old(IsFiled(Snap(), ui)) then [] else old(ui.commonUIs)
    {
      // the registry does not depend on the openUIs list: it is asked first
      var filed := ContainsValue(ui);
      Discard(ui, filed);
      DroppedConsistent(old(Snap()), ui);
    }

    /** The lines of DesUI once it is known whether the window is registered. */
    method Discard(ui: UIBase, filed: bool)
      requires NoDups(keys) && NoDups(openUIs) && filed == IsFiled(Snap(), ui)
      modifies this`openUIs, this`registry, this`keys, this`releases, ui`commonUIs, ui`destroyed
      ensures Snap() == Dropped(old(Snap()), ui)
      ensures ui.destroyed && ui.commonUIs == if filed then [] else old(ui.commonUIs)
    {
      RemoveIsKeep(openUIs, ui);
      RemoveIsKeep(keys, ui.uiTypeName);
      if ui in openUIs {
        openUIs := Remove(openUIs, ui);
      }
      if filed {
        var uiName := ui.uiTypeName;
        // OnAutoRelease() of each common sub-window, and of the window itself
        // once its content is loaded, are hooks outside this model
        ui.commonUIs := [];
        releases := releases + multiset{uiName};
        ui.destroyed := true;
        registry := registry - {uiName};
        keys := Remove(keys, uiName);
      } else {
        ui.destroyed := true;
      }
    }

    /** Dictionary.ContainsValue: in a valid registry, the record is
        registered exactly when it is filed under its own name. */
    method ContainsValue(ui: UIBase) returns (b: bool)
      requires Valid()
      ensures b == IsFiled(Snap(), ui)
    {
      b := ui in registry.Values;
      if b {
        FiledUnderOwnName(registry, keys, ui);
      }
    }

    /** The lines of removeUI, openUIInRoot and closeAllUIInRoot that take a
        window's name off the stack list and the window off the overlay list. */
    method Detach(ui: UIBase)
      requires ValidExcept(ui.uiTypeName)
      modifies this`stack, this`overlays
      ensures Valid() && Snap() == Detached(old(Snap()), ui)
    {
      DetachedConsistent(Snap(), ui);
      RemoveIsKeep(stack, ui.uiTypeName);
      RemoveIsKeep(overlays, ui);
      if ui.uiTypeName in stack {
        stack := Remove(stack, ui.uiTypeName);
      }
      if ui in overlays {
        overlays := Remove(overlays, ui);
      }
    }

    /** removeUI(UIBase): takes the window off the tier lists, then DesUI. */
    method RemoveUI(ui: UIBase)
      requires Valid()
      modifies this`stack, this`overlays, this`openUIs, this`registry, this`keys, this`releases,
        ui`commonUIs, ui`destroyed
      ensures Valid() && Snap() == Removed(old(Snap()), ui)
      ensures ui.State() == old(ui.State()).(destroyed := true,
        commonUIs := if old(IsFiled(Snap(), ui)) then [] else old(ui.commonUIs))
    {
      Loosen(Snap(), ui.uiTypeName);
      Detach(ui);
      DesUI(ui);
    }

    /** removeUI(string): removeUI on the record filed under the name, if any. */
    method RemoveUIByName(uiName: string)
      requires Valid()
      modifies this`stack, this`overlays, this`openUIs, this`registry, this`keys, this`releases,
        FiledAs(uiName)`commonUIs, FiledAs(uiName)`destroyed
      ensures Valid()
      ensures uiName !in old(registry) ==> Snap() == old(Snap())
      ensures uiName in old(registry) ==>
        var ui := old(registry[uiName]);
        && Snap() == Removed(old(Snap()), ui)
        && ui.State() == old(ui.State()).(commonUIs := [], destroyed := true)
    {
      if uiName in registry {
        RemoveUI(registry[uiName]);
      }
    }

    // ----------------------------------------------------------- teardown

    /** The fields of every registered record, by name. */
    ghost function States(): (r: map<string, UIState>)
      reads this`registry, registry.Values
      ensures r.Keys == registry.Keys
    {
      map k | k in registry :: registry[k].State()
    }

    /** One removeUI of the teardown loops, on a record of the registry the
        loop started from that is still registered. */
    method PurgeOne(ui: UIBase, ghost s0: Snapshot, ghost done: set<string>)
      requires Consistent(s0) && done <= s0.registry.Keys
      requires ui.uiTypeName in s0.registry && s0.registry[ui.uiTypeName] == ui && ui.uiTypeName !in done
      requires Valid() && Snap() == Purged(s0, done)
      modifies this`stack, this`overlays, this`openUIs, this`registry, this`keys, this`releases,
        ui`commonUIs, ui`destroyed
      ensures Valid() && Snap() == Purged(s0, done + {ui.uiTypeName})
      ensures ui.State() == old(ui.State()).(commonUIs := [], destroyed := true)
    {
      PurgedStep(s0, done, ui.uiTypeName);
      RemoveUI(ui);
    }

    /** One step of closeAllUIInRoot on a record to be closed: it is taken
        off the tier lists, deactivated and removed. */
    method CloseStep(ui: UIBase, ghost s0: Snapshot, ghost done: set<string>)
      requires Consistent(s0) && done <= s0.registry.Keys
      requires ui.uiTypeName in s0.registry && s0.registry[ui.uiTypeName] == ui && ui.uiTypeName !in done
      requires Valid() && Snap() == Purged(s0, done)
      modifies this`stack, this`overlays, this`openUIs, this`registry, this`keys, this`releases,
        ui`isActive, ui`commonUIs, ui`destroyed
      ensures Valid() && Snap() == Purged(s0, done + {ui.uiTypeName})
      ensures ui.State() == old(ui.State()).(isActive := false, commonUIs := [], destroyed := true)
    {
      ghost var p := Snap();
      PurgedStep(s0, done, ui.uiTypeName);
      DetachedTwice(p, ui);
      Loosen(p, ui.uiTypeName);
      Detach(ui);
      SetUIActive(ui, false);
      RemoveUI(ui);
    }

    /** The state of a teardown loop that has gone through the first i
        names of the key order it started from, s0: the selected names among
        them are purged, their records torn down, and every other record of
        s0 still has the fields it had, st0. */
    ghost predicate Progress(s0: Snapshot, st0: map<string, UIState>, sel: set<string>,
                             deactivate: bool, i: nat)
      reads this`registry, this`keys, this`stack, this`overlays, this`openUIs,
        this`dispatched, this`loads, this`releases, s0.registry.Values
    {
      && Consistent(s0) && sel <= s0.registry.Keys && i <= |s0.keys|
      && Snap() == Purged(s0, Chosen(s0.keys[..i], sel))
      && RecordsAt(s0, st0, Chosen(s0.keys[..i], sel), deactivate)
    }

    /** The records of s0 filed under the given names are torn down, and
        the others still have the fields they had, st0. */
    ghost predicate RecordsAt(s0: Snapshot, st0: map<string, UIState>, done: set<string>, deactivate: bool)
      reads s0.registry.Values
    {
      forall k :: k in s0.registry ==>
        && k in st0
        && s0.registry[k].State() == (if k in done then TornDown(st0[k], deactivate) else st0[k])
    }

    /** Tearing down one more record, and touching no other, keeps
        RecordsAt. */
    twostate lemma RecordsStep(new s0: Snapshot, new st0: map<string, UIState>, new done: set<string>,
                               new deactivate: bool, new ui: UIBase)
      requires old(allocated(s0)) && old(allocated(st0))
      requires old(RecordsAt(s0, st0, done, deactivate))
      requires ui.uiTypeName in s0.registry && s0.registry[ui.uiTypeName] == ui
      requires forall k :: k in s0.registry && k != ui.uiTypeName ==> unchanged(s0.registry[k])
      requires ui.State() == TornDown(old(ui.State()), deactivate)
      requires ui.uiTypeName !in done
      ensures RecordsAt(s0, st0, done + {ui.uiTypeName}, deactivate)
    {
    }

    /** A teardown loop that has gone through the whole key order has
        purged every selected name. */
    lemma Finished(s0: Snapshot, st0: map<string, UIState>, sel: set<string>, deactivate: bool)
      requires Progress(s0, st0, sel, deactivate, |s0.keys|)
      ensures Valid() && Snap() == Purged(s0, sel)
      ensures forall k :: k in s0.registry ==>
        s0.registry[k].State() == (if k in sel then TornDown(st0[k], deactivate) else st0[k])
    {
      assert s0.keys[..|s0.keys|] == s0.keys;
      ChosenAll(s0.keys, sel);
      PurgedConsistent(s0, sel);
    }

    /** The next name of a teardown loop is not among those already gone
        through, so its record still has the fields it started with. */
    lemma Pending(s0: Snapshot, st0: map<string, UIState>, sel: set<string>, deactivate: bool, i: nat)
      requires i < |s0.keys| && Progress(s0, st0, sel, deactivate, i)
      ensures s0.keys[i] in s0.registry && s0.keys[i] !in Chosen(s0.keys[..i], sel)
      ensures s0.registry[s0.keys[i]].State() == st0[s0.keys[i]]
    {
      NoDupsPrefix(s0.keys, i);
      ChosenIn(s0.keys[..i], sel, s0.keys[i]);
    }

    /** A teardown loop passes over a name it does not select. */
    lemma Skip(s0: Snapshot, st0: map<string, UIState>, sel: set<string>, deactivate: bool, i: nat)
      requires i < |s0.keys| && Progress(s0, st0, sel, deactivate, i) && s0.keys[i] !in sel
      ensures Progress(s0, st0, sel, deactivate, i + 1)
    {
      ChosenStep(s0.keys, sel, i);
      assert Chosen(s0.keys[..i + 1], sel) == Chosen(s0.keys[..i], sel);
    }

    /** A removing teardown loop removes the record of a name it selects. */
    method TakePurge(ui: UIBase, i: nat, ghost s0: Snapshot, ghost st0: map<string, UIState>,
                     ghost sel: set<string>)
      requires i < |s0.keys| && s0.keys[i] in s0.registry && ui == s0.registry[s0.keys[i]]
      requires Progress(s0, st0, sel, false, i) && s0.keys[i] in sel
      modifies this`stack, this`overlays, this`openUIs, this`registry, this`keys, this`releases,
        ui`commonUIs, ui`destroyed
      ensures Progress(s0, st0, sel, false, i + 1)
    {
      Pending(s0, st0, sel, false, i);
      PurgedConsistent(s0, Chosen(s0.keys[..i], sel));
      ChosenStep(s0.keys, sel, i);
      PurgeOne(ui, s0, Chosen(s0.keys[..i], sel));
      forall k | k in s0.registry && k != ui.uiTypeName
        ensures unchanged(s0.registry[k])
      {
        assert s0.registry[k].uiTypeName == k;
      }
      RecordsStep(s0, st0, Chosen(s0.keys[..i], sel), false, ui);
    }

    /** closeAllUIInRoot closes the record of a name it selects. */
    method TakeClose(ui: UIBase, i: nat, ghost s0: Snapshot, ghost st0: map<string, UIState>,
                     ghost sel: set<string>)
      requires i < |s0.keys| && s0.keys[i] in s0.registry && ui == s0.registry[s0.keys[i]]
      requires Progress(s0, st0, sel, true, i) && s0.keys[i] in sel
      modifies this`stack, this`overlays, this`openUIs, this`registry, this`keys, this`releases,
        ui`isActive, ui`commonUIs, ui`destroyed
      ensures Progress(s0, st0, sel, true, i + 1)
    {
      Pending(s0, st0, sel, true, i);
      PurgedConsistent(s0, Chosen(s0.keys[..i], sel));
      ChosenStep(s0.keys, sel, i);
      CloseStep(ui, s0, Chosen(s0.keys[..i], sel));
      forall k | k in s0.registry && k != ui.uiTypeName
        ensures unchanged(s0.registry[k])
      {
        assert s0.registry[k].uiTypeName == k;
      }
      RecordsStep(s0, st0, Chosen(s0.keys[..i], sel), true, ui);
    }

    /** The body of closeAllUIInRoot's loop. */
    method CloseNext(uiobj: UIBase, i: nat,
                     ghost s0: Snapshot, ghost st0: map<string, UIState>, ghost sel: set<string>)
      requires i < |s0.keys| && s0.keys[i] in s0.registry && uiobj == s0.registry[s0.keys[i]]
      requires sel == SceneBound(st0)
      requires Progress(s0, st0, sel, true, i)
      modifies this`stack, this`overlays, this`openUIs, this`registry, this`keys, this`releases,
        uiobj`isActive, uiobj`commonUIs, uiobj`destroyed
      ensures Progress(s0, st0, sel, true, i + 1)
    {
      Pending(s0, st0, sel, true, i);
      if uiobj.isActive && uiobj.switchSceneDestroy {
        TakeClose(uiobj, i, s0, st0, sel);
      } else {
        Skip(s0, st0, sel, true, i);
      }
    }

    /** closeAllUIInRoot: every active record that is destroyed on a scene
        switch is taken off the tier lists, deactivated and removed; the
        other records are left as they are. */
    method CloseAllUIInRoot()
      requires Valid()
      modifies this`stack, this`overlays, this`openUIs, this`registry, this`keys, this`releases,
        registry.Values`isActive, registry.Values`commonUIs, registry.Values`destroyed
      ensures Valid() && Snap() == Purged(old(Snap()), SceneBound(old(States())))
      ensures forall k :: k in old(registry) ==>
        old(registry[k]).State() == (if k in SceneBound(old(States()))
          then TornDown(old(States())[k], true) else old(States())[k])
    {
      // temp: a copy of the dictionary's entries, in enumeration order
      var ks, reg := keys, registry;
      ghost var s0, st0 := Snap(), States();
      ghost var sel := SceneBound(st0);
      PurgedNone(s0);
      var i := 0;
      while i < |ks|
        invariant i <= |ks| && Progress(s0, st0, sel, true, i)
      {
        CloseNext(reg[ks[i]], i, s0, st0, sel);
        assert Progress(s0, st0, sel, true, i + 1);
        i := i + 1;
      }
      Finished(s0, st0, sel, true);
    }

    /** The body of removeAllUIUnderRoot's loop. */
    method RemoveNext(ui: UIBase, i: nat,
                      ghost s0: Snapshot, ghost st0: map<string, UIState>)
      requires i < |s0.keys| && s0.keys[i] in s0.registry && ui == s0.registry[s0.keys[i]]
      requires Progress(s0, st0, s0.registry.Keys, false, i)
      modifies this`stack, this`overlays, this`openUIs, this`registry, this`keys, this`releases,
        ui`commonUIs, ui`destroyed
      ensures Progress(s0, st0, s0.registry.Keys, false, i + 1)
    {
      TakePurge(ui, i, s0, st0, s0.registry.Keys);
    }

    /** The loop of removeAllUIUnderRoot over its copy of the registry's
        values, once the tier lists are cleared: afterwards the registry is
        empty and every record is torn down. */
    method RemoveEach(baseAry: array<UIBase>)
      requires Valid() && stack == [] && overlays == []
      requires baseAry.Length == |keys|
      requires forall j :: 0 <= j < baseAry.Length ==> baseAry[j] == registry[keys[j]]
      modifies this`stack, this`overlays, this`openUIs, this`registry, this`keys, this`releases,
        registry.Values`commonUIs, registry.Values`destroyed
      ensures Valid()
      ensures Snap() == old(Snap()).(registry := map[], keys := [],
        openUIs := Keep(old(openUIs), old(registry.Values)),
        releases := old(releases) + multiset(old(registry.Keys)))
      ensures forall k :: k in old(registry) ==> old(registry[k]).State() == TornDown(old(registry[k].State()), false)
    {
      ghost var s0, st0 := Snap(), States();
      PurgedNone(s0);
      for i := 0 to baseAry.Length
        invariant Progress(s0, st0, s0.registry.Keys, false, i)
      {
        RemoveNext(baseAry[i], i, s0, st0);
      }
      Finished(s0, st0, s0.registry.Keys, false);
      PurgedAll(s0);
    }

    /** Dictionary.Values.CopyTo: a new array of the registered records, in
        the enumeration order of their names. */
    method CopyValues() returns (a: array<UIBase>)
      requires Valid()
      ensures fresh(a) && a.Length == |keys|
      ensures forall j :: 0 <= j < a.Length ==> a[j] == registry[keys[j]]
    {
      var ks, reg := keys, registry;
      a := new UIBase[|ks|](i requires 0 <= i < |ks| => reg[ks[i]]);
    }

    /** List.Clear on both tier lists. */
    method ClearTiers()
      requires Valid()
      modifies this`stack, this`overlays
      ensures Valid() && Snap() == old(Snap()).(stack := [], overlays := [])
    {
      ghost var s0 := Snap();
      assert Consistent(s0.(stack := [], overlays := []));
      stack, overlays := [], [];
      assert Snap() == s0.(stack := [], overlays := []);
    }

    /** Dictionary.Clear on the registry, once it holds nothing. */
    method ClearRegistry()
      requires Valid() && registry == map[]
      modifies this`registry, this`keys
      ensures registry == map[] && keys == []
      ensures Valid()
    {
      ghost var s1 := Snap();
      registry, keys := map[], [];
      assert Snap() == s1;
    }

    /** removeAllUIUnderRoot: both tier lists are cleared, every registered
        record is removed, and the registry is cleared. */
    method RemoveAllUIUnderRoot()
      requires Valid()
      modifies this`stack, this`overlays, this`openUIs, this`registry, this`keys, this`releases,
        registry.Values`commonUIs, registry.Values`destroyed
      ensures Valid()
      ensures Snap() == old(Snap()).(registry := map[], keys := [], stack := [], overlays := [],
        openUIs := Keep(old(openUIs), old(registry.Values)),
        releases := old(releases) + multiset(old(registry.Keys)))
      ensures forall k :: k in old(registry) ==> old(registry[k]).State() == TornDown(old(registry[k].State()), false)
    {
      ClearTiers();
      // base_ary: the dictionary's values, in enumeration order
      var baseAry := CopyValues();
      RemoveEach(baseAry);
      // the dictionary is already empty: clearing it leaves the snapshot as it is
      ClearRegistry();
    }

    /** The body of removeUIUnderRootExceptType's loop. */
    method RemoveOtherNext(uiobj: UIBase, i: nat, t: UIType,
                           ghost s0: Snapshot, ghost st0: map<string, UIState>, ghost sel: set<string>)
      requires i < |s0.keys| && s0.keys[i] in s0.registry && uiobj == s0.registry[s0.keys[i]]
      requires sel == OfOtherType(st0, t)
      requires Progress(s0, st0, sel, false, i)
      modifies this`stack, this`overlays, this`openUIs, this`registry, this`keys, this`releases,
        uiobj`commonUIs, uiobj`destroyed
      ensures Progress(s0, st0, sel, false, i + 1)
    {
      Pending(s0, st0, sel, false, i);
      if uiobj.uiType != t {
        TakePurge(uiobj, i, s0, st0, sel);
      } else {
        Skip(s0, st0, sel, false, i);
      }
    }

    /** List.Clear on the stack list. */
    method ClearStack()
      requires Valid()
      modifies this`stack
      ensures Valid() && Snap() == old(Snap()).(stack := [])
    {
      ghost var s0 := Snap();
      assert Consistent(s0.(stack := []));
      stack := [];
      assert Snap() == s0.(stack := []);
    }

    /** The loop of removeUIUnderRootExceptType over a copy of the
        registry's entries: every record of another type than the given one
        is removed. */
    method RemoveOthers(t: UIType, ghost s0: Snapshot, ghost st0: map<string, UIState>)
      requires Valid() && s0 == Snap() && st0 == States()
      modifies this`stack, this`overlays, this`openUIs, this`registry, this`keys, this`releases,
        registry.Values`commonUIs, registry.Values`destroyed
      ensures Valid() && Snap() == Purged(s0, OfOtherType(st0, t))
      ensures forall k :: k in s0.registry ==>
        s0.registry[k].State() == (if k in OfOtherType(st0, t) then TornDown(st0[k], false) else st0[k])
    {
      // temp: a copy of the dictionary's entries, in enumeration order
      var ks, reg := keys, registry;
      ghost var sel := OfOtherType(st0, t);
      PurgedNone(s0);
      var i := 0;
      while i < |ks|
        invariant i <= |ks| && Progress(s0, st0, sel, false, i)
      {
        RemoveOtherNext(reg[ks[i]], i, t, s0, st0, sel);
        assert Progress(s0, st0, sel, false, i + 1);
        i := i + 1;
      }
      Finished(s0, st0, sel, false);
    }

    /** removeUIUnderRootExceptType: the stack list is cleared and every
        record of another type than the given one is removed; the overlay
        list keeps the records of that type. */
    method RemoveUIUnderRootExceptType(t: UIType)
      requires Valid()
      modifies this`stack, this`overlays, this`openUIs, this`registry, this`keys, this`releases,
        registry.Values`commonUIs, registry.Values`destroyed
      ensures Valid() && Snap() == Purged(old(Snap()).(stack := []), OfOtherType(old(States()), t))
      ensures forall k :: k in old(registry) ==>
        old(registry[k]).State() == (if k in OfOtherType(old(States()), t)
          then TornDown(old(States())[k], false) else old(States())[k])
    {
      ghost var s0, st0 := Snap(), States();
      ClearStack();
      assert States() == st0;
      RemoveOthers(t, s0.(stack := []), st0);
    }

    // --------------------------------------------------------- registration

    /** _registUI: whatever is filed under the name is destroyed and
        unregistered (removeUIFromUIRoot), and the record is filed under it. */
    method RegistUI(uiname: string, uiobj: UIBase)
      requires Valid() && uiobj.uiTypeName == uiname
      modifies this`registry, this`keys, FiledAs(uiname)`destroyed
      ensures ValidExcept(uiname) && Snap() == Registered(old(Snap()), uiname, uiobj)
      ensures uiname in old(registry) ==>
        old(registry[uiname]).State() == old(registry[uiname].State()).(destroyed := true)
    {
      RegisteredConsistent(Snap(), uiname, uiobj);
      RemoveUIFromUIRoot(uiname);
      registry := registry[uiname := uiobj];
      keys := keys + [uiname];
    }

    /** System.Type.GetType resolves the class name and nothing is filed
        under the short name of the class: addUIToRoot adds a component. */
    predicate Instantiable(className: string)
      reads this`registry
    {
      className in classes && classes[className].name !in registry
    }

    /** addUIToRoot: when the class resolves and nothing is filed under its
        short name, puts a fresh component of the class on a new GameObject
        named after the class, registers it under the prefab name if it is a
        UIBase, and requests the prefab from the loader. */
    method AddUIToRoot(perfabName: string, className: string)
      requires Valid()
      modifies this`registry, this`keys, this`loads, FiledAs(perfabName)`destroyed
      ensures ValidExcept(perfabName)
      ensures !old(Instantiable(className)) ==> Snap() == old(Snap())
      ensures old(Instantiable(className)) && !classes[className].isUIBase ==>
        Snap() == old(Snap()).(loads := old(loads) + [LoadRequest(perfabName, null)])
      ensures old(Instantiable(className)) && classes[className].isUIBase ==>
        && perfabName in registry
        && var w := registry[perfabName];
        && fresh(w) && w.State() == InitialState
        && w.objName == className && w.typeName == classes[className].name && w.uiTypeName == perfabName
        && Snap() == Created(old(Snap()), perfabName, w)
        && (perfabName in old(registry) ==>
              old(registry[perfabName]).State() == old(registry[perfabName].State()).(destroyed := true))
    {
      Loosen(Snap(), perfabName);
      if className !in classes {
        // Debug.LogError: the class name does not resolve
        return;
      }
      var uiType := classes[className];
      if uiType.name !in registry {
        if uiType.isUIBase {
          var compents := new UIBase(className, uiType.name, perfabName);
          RegistUI(perfabName, compents);
          loads := loads + [LoadRequest(perfabName, compents)];
        } else {
          loads := loads + [LoadRequest(perfabName, null)];
        }
      }
    }

    /** The record the load callback attaches content to, once the context
        is a UIBase and something is filed under its name. */
    function LoadTarget(ob: UIBase?): set<UIBase>
      reads this`registry
    {
      if ob == null then {} else FiledAs(ob.uiTypeName)
    }

    /** _OnLoadedUIAddToRoot: attaches the loaded content to the record
        filed under the context's uiTypeName (which need not be the context
        itself), marks it loaded and deactivates it. */
    method OnLoadedUIAddToRoot(obj: Prefab?, ob: UIBase?) returns (outcome: LoadOutcome)
      modifies LoadTarget(ob)`showUILoaded, LoadTarget(ob)`isActive
      ensures obj == null ==> outcome == NoAsset
      ensures obj != null && ob == null ==> outcome == BadContext
      ensures obj != null && ob != null && ob.uiTypeName !in registry ==> outcome == KeyNotFound
      ensures outcome == Attached <==> obj != null && ob != null && ob.uiTypeName in registry
      ensures outcome == Attached ==>
        var ui := registry[ob.uiTypeName];
        ui.State() == old(ui.State()).(showUILoaded := true, isActive := false)
      ensures outcome == Attached && registry[ob.uiTypeName].typeName == ob.uiTypeName ==>
        GetTargetUI(ob.uiTypeName) == registry[ob.uiTypeName] && !TargetActive(ob.uiTypeName)
    {
      if obj == null {
        // UTLog.Error: the loader delivered nothing
        return NoAsset;
      }
      if ob == null {
        return BadContext;
      }
      if ob.uiTypeName !in registry {
        return KeyNotFound;
      }
      var ui := registry[ob.uiTypeName];
      // _OnLoadedShowUI and OnAutoLoadedUIObj: the content is attached
      ui.showUILoaded := true;
      SetUIActive(ui, false);
      outcome := Attached;
    }

    // ----------------------------------------------------------------- open

    /** A record is filed under the name, or openUIInRoot can create one. */
    predicate Resolves(className: string, name: string)
      reads this`registry
    {
      name in registry || (Instantiable(className) && classes[className].isUIBase)
    }

    /** The record that opening the name as a window of tier t tears down. */
    ghost function Covered(name: string, t: UIType): UIBase?
      reads this`registry, this`keys, this`stack, this`overlays, this`openUIs,
        this`dispatched, this`loads, this`releases
    {
      CoveredIn(Snap(), name, t)
    }

    /** The effect of openUIInRoot(className, t, sw, perfabName): the record
        filed under the name (found or created) is placed, with its fields
        set; an unresolvable name only logs. */
    twostate predicate Opened(className: string, t: UIType, sw: bool, perfabName: string)
      reads this, registry.Values
    {
      var name := OpenName(className, perfabName);
      if old(name in registry) then Reopened(name, t, sw) else OpenedNew(className, name, t, sw)
    }

    /** openUIInRoot on a name a record is filed under: the same record is
        placed, with its tier, order, activity, scene flag and refresh set. */
    twostate predicate Reopened(name: string, t: UIType, sw: bool)
      reads this, registry.Values
    {
      && old(name in registry) && name in registry && registry[name] == old(registry[name])
      && var ui := registry[name];
      && ui.State() == old(ui.State()).(uiType := t, order := old(OrderOnOpen(name, t)), isActive := true,
           refreshPending := false, switchSceneDestroy := sw,
           refreshData := if old(ui.refreshPending) then null else old(ui.refreshData))
      && Snap() == Placed(old(Snap()), ui, t, old(ui.refreshPending), old(ui.refreshData))
    }

    /** Reopening a registered record whose payload is paired with its
        pending flag leaves it with no refresh pending and no payload. */
    twostate lemma ReopenedClearsRefresh(new name: string, new t: UIType, new sw: bool)
      requires Reopened(name, t, sw) && old(RefreshPaired(registry[name].State()))
      ensures registry[name].refreshData == null && !registry[name].refreshPending
    {
    }

    /** openUIInRoot on a name nothing is filed under: a fresh record of the
        class is created and placed if the class resolves to a UIBase; else
        only the load request of a non-UIBase component is left behind. */
    twostate predicate OpenedNew(className: string, name: string, t: UIType, sw: bool)
      reads this, registry.Values
    {
      && old(name !in registry)
      && (name in registry <==> old(Resolves(className, name)))
      && (!old(Resolves(className, name)) ==>
            Snap() == old(Snap()).(loads := old(loads) +
              (if old(Instantiable(className)) then [LoadRequest(name, null)] else [])))
      && (old(Resolves(className, name)) ==>
            var ui := registry[name];
            && fresh(ui) && ui.objName == className && ui.typeName == classes[className].name
            && ui.uiTypeName == name
            && ui.State() == InitialState.(uiType := t, order := old(OrderOnOpen(name, t)), isActive := true,
                 switchSceneDestroy := sw)
            && Snap() == Placed(Created(old(Snap()), name, ui), ui, t, false, null))
    }

    /** openUIInRoot(className, rUIType, isSwitchDes, perfabName): finds the
        record filed under the prefab name (the class name when the prefab
        name is empty), creating it when need be; takes it off the tier
        lists, sets its tier, its scene flag and its order, files it in its
        tier's list (for a stack window, after tearing down the window it
        covers), lists it as opened, activates it and flushes a pending
        refresh. */
    method OpenUIInRoot(className: string, rUIType: UIType, isSwitchDes: bool, perfabName: string)
      requires Valid()
      modifies this`registry, this`keys, this`stack, this`overlays, this`openUIs, this`dispatched,
        this`loads, this`releases,
        FiledAs(OpenName(className, perfabName))`uiType, FiledAs(OpenName(className, perfabName))`order,
        FiledAs(OpenName(className, perfabName))`isActive, FiledAs(OpenName(className, perfabName))`refreshPending,
        FiledAs(OpenName(className, perfabName))`refreshData,
        FiledAs(OpenName(className, perfabName))`switchSceneDestroy,
        Only(Covered(OpenName(className, perfabName), rUIType))`commonUIs,
        Only(Covered(OpenName(className, perfabName), rUIType))`destroyed
      ensures Valid() && Opened(className, rUIType, isSwitchDes, perfabName)
      ensures var c := old(Covered(OpenName(className, perfabName), rUIType));
        old(Resolves(className, OpenName(className, perfabName))) && c != null ==>
        c.commonUIs == [] && c.destroyed
    {
      var name := OpenName(className, perfabName);
      if name in registry {
        Loosen(Snap(), name);
        OpenFound(name, rUIType, isSwitchDes);
      } else {
        OpenNew(className, name, rUIType, isSwitchDes);
      }
    }

    /** An open that finds or creates a record leaves it filed under the
        name and active: checkTargetUIActive of that name is then true. */
    twostate lemma OpenActivates(new className: string, new t: UIType, new sw: bool, new perfabName: string)
      requires Opened(className, t, sw, perfabName)
      requires old(Resolves(className, OpenName(className, perfabName)))
      ensures TargetActive(OpenName(className, perfabName))
    {
    }

    /** openUIInRoot when a record is filed under the name: it takes the
        requested tier (recoverOder restores the canvas order, which
        freshCanvasOder overwrites) and is placed. */
    method OpenFound(name: string, rUIType: UIType, isSwitchDes: bool)
      requires ValidExcept(name) && name in registry && registry[name].uiTypeName == name
      modifies this`registry, this`keys, this`stack, this`overlays, this`openUIs, this`dispatched,
        this`releases, FiledAs(name)`uiType, FiledAs(name)`order, FiledAs(name)`isActive,
        FiledAs(name)`refreshPending, FiledAs(name)`refreshData, FiledAs(name)`switchSceneDestroy,
        Only(Covered(name, rUIType))`commonUIs, Only(Covered(name, rUIType))`destroyed
      ensures Valid() && Reopened(name, rUIType, isSwitchDes)
      ensures var c := old(Covered(name, rUIType));
        c != null ==> c.commonUIs == [] && c.destroyed
    {
      var ui := registry[name];
      ghost var s, st, o := Snap(), ui.State(), OrderOnOpen(name, rUIType);
      SetType(ui, rUIType);
      Place(ui, rUIType, isSwitchDes, s, st, o);
    }

    /** A found record takes the requested tier at once. */
    method SetType(ui: UIBase, t: UIType)
      modifies ui`uiType
      ensures ui.State() == old(ui.State()).(uiType := t)
    {
      ui.uiType := t;
    }

    /** openUIInRoot when nothing is filed under the name: addUIToRoot, the
        second lookup, and the record placed if there is one. */
    method OpenNew(className: string, name: string, t: UIType, sw: bool)
      requires Valid() && name !in registry
      modifies this`registry, this`keys, this`stack, this`overlays, this`openUIs, this`dispatched,
        this`loads, this`releases, Only(Covered(name, t))`commonUIs, Only(Covered(name, t))`destroyed
      ensures Valid() && OpenedNew(className, name, t, sw)
      ensures var c := old(Covered(name, t));
        old(Resolves(className, name)) && c != null ==> c.commonUIs == [] && c.destroyed
    {
      var ui := AddRecord(className, name);
      if ui == null {
        // Debug.LogError: the record can be neither found nor created
        return;
      }
      CreatedOrder(name, t);
      CreatedCovered(old(Snap()), name, ui, t);
      Place(ui, t, sw, Snap(), ui.State(), OrderOnOpen(name, t));
    }

    /** addUIToRoot followed by the second registry lookup of openUIInRoot,
        for a name nothing is filed under. */
    method AddRecord(className: string, name: string) returns (ui: UIBase?)
      requires Valid() && name !in registry
      modifies this`registry, this`keys, this`loads
      ensures ui == null <==> !old(Resolves(className, name))
      ensures ui == null ==>
        && Valid()
        && Snap() == old(Snap()).(loads := old(loads) +
             (if old(Instantiable(className)) then [LoadRequest(name, null)] else []))
      ensures ui != null ==>
        && ValidExcept(name) && IsFiled(Snap(), ui)
        && fresh(ui) && ui.State() == InitialState
        && ui.objName == className && ui.typeName == classes[className].name && ui.uiTypeName == name
        && Snap() == Created(old(Snap()), name, ui)
    {
      AddUIToRoot(name, className);
      ui := if name in registry then registry[name] else null;
    }

    /** Filing a fresh record under a name nothing was filed under leaves the
        order opening that name would give unchanged. */
    twostate lemma CreatedOrder(new name: string, new t: UIType)
      requires old(name !in registry) && name in registry && fresh(registry[name])
      requires registry == old(registry)[name := registry[name]] && stack == old(stack) && overlays == old(overlays)
      requires unchanged(old(registry.Values)) && unchanged(old(overlays))
      ensures OrderOnOpen(name, t) == old(OrderOnOpen(name, t))
    {
      var w := registry[name];
      StackOrdersKept(Keep(stack, {name}), name);
      assert w !in overlays;
      KeepNothing(overlays, {});
      KeepNothing(overlays, {w});
      var oo := old(OverlayOrders(Keep(overlays, FiledAs(name))));
      assert OverlayOrders(Keep(overlays, FiledAs(name))) == oo;
    }

    /** Filing a record under a name not in the list leaves the list's
        orders as they were. */
    twostate lemma {:induction false} StackOrdersKept(new names: seq<string>, new name: string)
      requires name !in names && old(name !in registry) && name in registry
      requires registry == old(registry)[name := registry[name]] && unchanged(old(registry.Values))
      ensures StackOrders(names) == old(StackOrders(names))
    {
      if names != [] {
        StackOrdersKept(names[1..], name);
      }
    }

    /** The orders an open reads do not depend on the stack list it is
        computed from, only on the registered and overlay records. */
    twostate lemma OrderKept(new st: seq<string>, new name: string, new t: UIType)
      requires registry == old(registry) && overlays == old(overlays)
      requires unchanged(old(registry.Values)) && unchanged(old(overlays))
      ensures OrderFrom(st, name, t) == old(OrderFrom(st, name, t))
    {
      var so := old(StackOrders(Keep(st, {name})));
      assert forall i :: 0 <= i < |so| ==> StackOrders(Keep(st, {name}))[i] == so[i];
      var oo := old(OverlayOrders(Keep(overlays, FiledAs(name))));
      assert OverlayOrders(Keep(overlays, FiledAs(name))) == oo;
    }

    /** Everything openUIInRoot does once it holds the record of tier t; s,
        st and o are the snapshot, the record's state (up to its tier) and
        its order-to-be when openUIInRoot took hold of it. */
    method Place(ui: UIBase, t: UIType, sw: bool, ghost s: Snapshot, ghost st: UIState, ghost o: int)
      requires ValidExcept(ui.uiTypeName) && IsFiled(Snap(), ui)
      requires s == Snap() && o == OrderOnOpen(ui.uiTypeName, t)
      requires ui.State() == st.(uiType := ui.uiType) && (ui.uiType == t || ui.uiType == None)
      modifies this`stack, this`overlays, this`openUIs, this`registry, this`keys, this`releases, this`dispatched,
        ui`uiType, ui`order, ui`switchSceneDestroy, ui`isActive, ui`refreshPending, ui`refreshData,
        Only(CoveredIn(s, ui.uiTypeName, t))`commonUIs, Only(CoveredIn(s, ui.uiTypeName, t))`destroyed
      ensures Valid() && IsFiled(Snap(), ui)
      ensures Snap() == Placed(s, ui, t, st.refreshPending, st.refreshData)
      ensures ui.State() == st.(uiType := t, order := o, isActive := true, refreshPending := false,
        switchSceneDestroy := sw, refreshData := if st.refreshPending then null else st.refreshData)
      ensures var c := CoveredIn(s, ui.uiTypeName, t);
        c != null ==> c.commonUIs == [] && c.destroyed
    {
      ghost var c := CoveredIn(s, ui.uiTypeName, t);
      PlacedConsistent(s, ui, t, st.refreshPending, st.refreshData);
      CoveredOther(s, ui, t);
      Layer(ui, t, sw);
      Settle(ui, t, c);
    }

    /** The lines of openUIInRoot from the removal of the record from the
        tier lists to freshCanvasOder. */
    method Layer(ui: UIBase, t: UIType, sw: bool)
      requires ValidExcept(ui.uiTypeName) && IsFiled(Snap(), ui)
      requires ui.uiType == t || ui.uiType == None
      modifies this`stack, this`overlays, ui`uiType, ui`switchSceneDestroy, ui`order
      ensures keys == old(keys) && openUIs == old(openUIs) && Snap() == Detached(old(Snap()), ui)
      ensures ui.State() == old(ui.State()).(uiType := t, order := old(OrderOnOpen(ui.uiTypeName, t)),
        switchSceneDestroy := sw)
    {
      DetachFor(ui, t);
      Retier(ui, t, sw);
      // freshCanvasOder
      Reorder(ui);
    }

    /** Detach, seen from the tier t the record is about to take: the orders
        left on the lists are the ones the open computes. */
    method DetachFor(ui: UIBase, ghost t: UIType)
      requires ValidExcept(ui.uiTypeName) && IsFiled(Snap(), ui)
      modifies this`stack, this`overlays
      ensures Snap() == Detached(old(Snap()), ui)
      ensures TierOrder(t, StackOrders(stack), OverlayOrders(overlays)) == old(OrderOnOpen(ui.uiTypeName, t))
    {
      ghost var so := StackOrders(Keep(stack, {ui.uiTypeName}));
      ghost var oo := OverlayOrders(Keep(overlays, FiledAs(ui.uiTypeName)));
      assert FiledAs(ui.uiTypeName) == {ui};
      Detach(ui);
      assert StackOrders(stack) == so;
      assert OverlayOrders(overlays) == oo;
    }

    /** The record takes the requested tier (unless it is None) and the
        scene flag. */
    method Retier(ui: UIBase, t: UIType, sw: bool)
      requires ui.uiType == t || ui.uiType == None
      modifies ui`uiType, ui`switchSceneDestroy
      ensures ui.State() == old(ui.State()).(uiType := t, switchSceneDestroy := sw)
      ensures StackOrders(stack) == old(StackOrders(stack)) && OverlayOrders(overlays) == old(OverlayOrders(overlays))
    {
      if t != None {
        ui.uiType := t;
      }
      ui.switchSceneDestroy := sw;
    }

    /** freshCanvasOder: the record takes the order GetCanvasOder gives its tier. */
    method Reorder(ui: UIBase)
      modifies ui`order
      ensures ui.State() == old(ui.State()).(order := old(CanvasOrder(ui.uiType)))
    {
      var o := GetCanvasOder(ui.uiType);
      ui.order := o;
    }

    /** The record, off the tier lists and in its tier, is filed in its
        tier's list, listed as opened, activated and sent its pending refresh. */
    method Settle(ui: UIBase, t: UIType, ghost c: UIBase?)
      requires NoDups(keys) && NoDups(openUIs) && ui.uiType == t && ui.uiTypeName !in stack
      requires c == if t == StackUI then TopOf(stack, registry) else null
      requires c != null ==> IsFiled(Snap(), c) && c != ui
      modifies this`stack, this`overlays, this`openUIs, this`registry, this`keys, this`releases, this`dispatched,
        ui`isActive, ui`refreshPending, ui`refreshData, Only(c)`commonUIs, Only(c)`destroyed
      ensures Snap() == Shown(Tiered(old(Snap()), ui, t), ui, old(ui.refreshPending), old(ui.refreshData))
      ensures ui.State() == old(ui.State()).(isActive := true, refreshPending := false,
        refreshData := if old(ui.refreshPending) then null else old(ui.refreshData))
      ensures c != null ==> c.commonUIs == [] && c.destroyed
    {
      FileInTier(ui, t, c);
      Show(ui);
    }

    /** The switch of openUIInRoot on the record's tier: an overlay joins the
        overlay list unless it is on it; a stack window tears down the window
        on top of the stack list and goes on top itself. */
    method FileInTier(ui: UIBase, t: UIType, ghost c: UIBase?)
      requires NoDups(keys) && NoDups(openUIs) && ui.uiType == t && ui.uiTypeName !in stack
      requires c == if t == StackUI then TopOf(stack, registry) else null
      requires c != null ==> IsFiled(Snap(), c)
      modifies this`stack, this`overlays, this`openUIs, this`registry, this`keys, this`releases,
        Only(c)`commonUIs, Only(c)`destroyed
      ensures Snap() == Tiered(old(Snap()), ui, t)
      ensures c != null ==> c.commonUIs == [] && c.destroyed
    {
      match ui.uiType {
        case SuperpositionUI =>
          if ui !in overlays {
            overlays := overlays + [ui];
          }
        case StackUI =>
          PushStack(ui, c);
        case _ =>
      }
    }

    /** The stack case of openUIInRoot's switch: the window filed under the
        top stack name is torn down (DesUI, whose registry test holds, the
        window having just been read from the registry) and the record's
        name goes on top. */
    method PushStack(ui: UIBase, ghost c: UIBase?)
      requires NoDups(keys) && NoDups(openUIs) && ui.uiTypeName !in stack
      requires c == TopOf(stack, registry) && (c != null ==> IsFiled(Snap(), c))
      modifies this`stack, this`openUIs, this`registry, this`keys, this`releases, Only(c)`commonUIs, Only(c)`destroyed
      ensures Snap() == Tiered(old(Snap()), ui, StackUI)
      ensures c != null ==> c.commonUIs == [] && c.destroyed
    {
      stack := Remove(stack, ui.uiTypeName);
      if |stack| > 0 {
        var lastUI := if stack[|stack| - 1] in registry then registry[stack[|stack| - 1]] else null;
        if lastUI != null {
          Discard(lastUI, true);
        }
      }
      stack := stack + [ui.uiTypeName];
    }

    /** The last lines of openUIInRoot: the record is listed as opened and
        activated, and a pending refresh is sent to it and cleared. */
    method Show(ui: UIBase)
      modifies this`openUIs, this`dispatched, ui`isActive, ui`refreshPending, ui`refreshData
      ensures Snap() == Shown(old(Snap()), ui, old(ui.refreshPending), old(ui.refreshData))
      ensures ui.State() == old(ui.State()).(isActive := true, refreshPending := false,
        refreshData := if old(ui.refreshPending) then null else old(ui.refreshData))
    {
      if ui !in openUIs {
        openUIs := openUIs + [ui];
      }
      SetUIActive(ui, true);
      if ui.refreshPending {
        dispatched := dispatched + [Message(ui, Refresh, ui.refreshData)];
        ui.refreshData := null;
        ui.refreshPending := false;
      }
    }

    // -------------------------------------------------------------- refresh

    /** What refreshUI does to the window w its lookup found: nothing when
        there is none; a UI_Refresh_Event message when its content is loaded
        and it is active; else the refresh is left pending on it. */
    twostate predicate Refreshed(w: UIBase?, data: Payload?)
      reads this, Only(w)
    {
      && (w == null ==> Snap() == old(Snap()))
      && (w != null && old(w.showUILoaded && w.isActive) ==>
            && Snap() == old(Snap()).(dispatched := old(dispatched) + [Message(w, UIRefreshEvent, data)])
            && w.State() == old(w.State()))
      && (w != null && !old(w.showUILoaded && w.isActive) ==>
            && Snap() == old(Snap())
            && w.State() == old(w.State()).(refreshPending := true, refreshData := data))
    }

    /** refreshUI<T>(Data): sends the refresh message to the window of class
        T, or leaves it pending until the window is next opened. */
    method RefreshUI(typeName: string, data: Payload?)
      requires Valid()
      modifies this`dispatched, UnderRootSet(typeName)`refreshPending, UnderRootSet(typeName)`refreshData
      ensures Valid() && Refreshed(old(UIUnderRoot(typeName)), data)
    {
      var ui := GetUIUnderRoot(typeName);
      if ui == null {
        return;
      }
      if ui.showUILoaded && ui.isActive {
        dispatched := dispatched + [Message(ui, UIRefreshEvent, data)];
      } else {
        ui.refreshData := data;
        ui.refreshPending := true;
      }
    }

    /** OpenOrRefreshUI<T>(type): opens the window of class T as a window of
        the given tier when the lookup finds none, else refreshes it with no
        payload. */
    method OpenOrRefreshUI(typeName: string, t: UIType)
      requires Valid()
      modifies this`registry, this`keys, this`stack, this`overlays, this`openUIs, this`dispatched,
        this`loads, this`releases,
        FiledAs(typeName)`uiType, FiledAs(typeName)`order, FiledAs(typeName)`isActive,
        FiledAs(typeName)`refreshPending, FiledAs(typeName)`refreshData, FiledAs(typeName)`switchSceneDestroy,
        Only(Covered(typeName, t))`commonUIs, Only(Covered(typeName, t))`destroyed,
        UnderRootSet(typeName)`refreshPending, UnderRootSet(typeName)`refreshData
      ensures Valid()
      ensures old(UIUnderRoot(typeName)) == null ==> Opened(typeName, t, true, "")
      ensures var c := old(Covered(typeName, t));
        old(UIUnderRoot(typeName)) == null && old(Resolves(typeName, typeName)) && c != null ==>
        c.commonUIs == [] && c.destroyed
      ensures old(UIUnderRoot(typeName)) != null ==> Refreshed(old(UIUnderRoot(typeName)), null)
    {
      var ui := GetUIUnderRoot(typeName);
      if ui == null {
        OpenUIInRoot(typeName, t, true, "");
        return;
      }
      RefreshUI(typeName, null);
    }

    // ---------------------------------------------------------------- close

    /** The records a close of ui re-opens: the one filed under the name on
        top of the stack list once ui's name is off it. */
    function BelowTop(ui: UIBase): set<UIBase>
      reads this`registry, this`stack
    {
      var st := Keep(stack, {ui.uiTypeName});
      if st == [] then {} else FiledAs(st[|st| - 1])
    }

    /** BelowTop of the window closeUIInRoot<T> finds. */
    function ReopenSet(typeName: string): set<UIBase>
      reads this`registry, this`keys, this`stack
    {
      var ui := UIUnderRoot(typeName);
      if ui == null then {} else BelowTop(ui)
    }

    /** The record filed under the top name of st, if any. */
    function TopRecord(st: seq<string>): UIBase?
      reads this`registry
    {
      if st != [] && st[|st| - 1] in registry then registry[st[|st| - 1]] else null
    }

    /** The collections after the stack case of closeUIInRoot has left st
        on the stack list and re-opened its top name, if any, as a stack
        window with openUIInRoot(top, StackUI). */
    twostate function Reopening(st: seq<string>): Snapshot
      reads this, registry.Values
    {
      var w := old(TopRecord(st));
      var ws := if w == null then InitialState else old(w.State());
      ReopenedTop(old(Snap()).(stack := st), w, ws.refreshPending, ws.refreshData,
        if w == null then TopRecord(st) else null,
        st != [] && old(Instantiable(st[|st| - 1])))
    }

    /** The state of the record Reopening(st) re-opens: the found record with
        its tier, order, activity, scene flag and refresh set, or a new record
        of the class named like the top name. */
    twostate predicate ReopenedRecord(st: seq<string>)
      reads this, registry.Values
    {
      st != [] ==>
        var top := st[|st| - 1];
        var w := old(TopRecord(st));
        var r := TopRecord(st);
        && RecordReopened(top, r, w, if w == null then InitialState else old(w.State()),
             old(OrderFrom(st, top, StackUI)), old(Resolves(top, top)))
        && (w == null && r != null ==> r !in old(registry.Values))
    }

    /** What openUIInRoot(top, StackUI) does to the record r filed under top
        afterwards: the record w found under top, whose state was ws, gets the
        stack tier, the order ord, is active, has its scene flag set and its
        pending refresh flushed; when none was found, a record is filed under
        top exactly when the class resolves, a new component with the
        initial state of an opened stack window. */
    predicate RecordReopened(top: string, r: UIBase?, w: UIBase?, ws: UIState, ord: int, resolves: bool)
      reads r
    {
      && (w != null ==>
            && r == w
            && w.State() == ws.(uiType := StackUI, order := ord,
                 isActive := true, refreshPending := false, switchSceneDestroy := true,
                 refreshData := if ws.refreshPending then null else ws.refreshData))
      && (w == null ==> (r != null <==> resolves))
      && (w == null && r != null ==>
            && r.objName == top && top in classes && r.typeName == classes[top].name && r.uiTypeName == top
            && r.State() == InitialState.(uiType := StackUI, order := ord, isActive := true, switchSceneDestroy := true))
    }

    /** The effect of closeUIInRoot on the active window ui it found: ui is
        deactivated and removed (removeUI), after being taken off its tier
        list and, for a stack window, after the window below it is re-opened. */
    twostate predicate Closed(ui: UIBase)
      reads this, registry.Values, ui
    {
      && ui.State() == old(ui.State()).(isActive := false, commonUIs := [], destroyed := true)
      && ui.uiTypeName !in registry
      && (old(ui.uiType) != StackUI ==> Snap() == Removed(old(Snap()), ui))
      && (old(ui.uiType) == StackUI ==>
            var st := Keep(old(stack), {ui.uiTypeName});
            Snap() == Removed(Reopening(st), ui) && ReopenedRecord(st))
    }

    /** closeUIInRoot<T>: nothing for a missing or inactive window; else the
        window leaves its tier list (a stack window re-opening the one below
        it), is deactivated and removed. */
    method CloseUIInRoot(typeName: string)
      requires Valid()
      modifies this`registry, this`keys, this`stack, this`overlays, this`openUIs, this`dispatched,
        this`loads, this`releases,
        UnderRootSet(typeName)`isActive, UnderRootSet(typeName)`commonUIs, UnderRootSet(typeName)`destroyed,
        ReopenSet(typeName)`uiType, ReopenSet(typeName)`order, ReopenSet(typeName)`isActive,
        ReopenSet(typeName)`refreshPending, ReopenSet(typeName)`refreshData, ReopenSet(typeName)`switchSceneDestroy
      ensures Valid()
      ensures var ui := old(UIUnderRoot(typeName));
        ui == null || !old(ui.isActive) ==> Snap() == old(Snap()) && unchanged(registry.Values)
      ensures var ui := old(UIUnderRoot(typeName)); ui != null && old(ui.isActive) ==>
        Closed(ui) && !TargetActive(ui.uiTypeName)
    {
      // _getUIUnderRoot<T>, by the function GetUIUnderRoot computes
      var ui := UIUnderRoot(typeName);
      if ui == null {
        // Debug.Log: closeUI failed, not found
        return;
      }
      if !ui.isActive {
        return;
      }
      FiledUnderOwnName(registry, keys, ui);
      CloseActive(ui);
      // OnUICloseEvent is a hook outside this model
    }

    /** closeUIInRoot from its switch on, for an active registered window. */
    method CloseActive(ui: UIBase)
      requires Valid() && IsFiled(Snap(), ui)
      modifies this`registry, this`keys, this`stack, this`overlays, this`openUIs, this`dispatched,
        this`loads, this`releases, ui`isActive, ui`commonUIs, ui`destroyed,
        BelowTop(ui)`uiType, BelowTop(ui)`order, BelowTop(ui)`isActive,
        BelowTop(ui)`refreshPending, BelowTop(ui)`refreshData, BelowTop(ui)`switchSceneDestroy
      ensures Valid() && Closed(ui)
    {
      // recoverOder restores the canvas order, which the next open overwrites
      if ui.uiType == StackUI {
        CloseStack(ui);
      } else {
        CloseFlat(ui);
      }
    }

    /** closeUIInRoot for a window of any tier but the stack: an overlay
        leaves the overlay list; then the window is deactivated and removed. */
    method CloseFlat(ui: UIBase)
      requires Valid() && IsFiled(Snap(), ui) && ui.uiType != StackUI
      modifies this`registry, this`keys, this`stack, this`overlays, this`openUIs,
        this`releases, ui`isActive, ui`commonUIs, ui`destroyed
      ensures Valid() && Closed(ui)
    {
      if ui.uiType == SuperpositionUI {
        PopOverlay(ui);
        DetachedAfter(old(Snap()), ui);
      }
      Dismiss(ui, []);
    }

    /** closeUIInRoot for a stack window: its name leaves the stack list, the
        new top name is re-opened, and the window is deactivated and removed. */
    method CloseStack(ui: UIBase)
      requires Valid() && IsFiled(Snap(), ui) && ui.uiType == StackUI
      modifies this`registry, this`keys, this`stack, this`overlays, this`openUIs, this`dispatched,
        this`loads, this`releases, ui`isActive, ui`commonUIs, ui`destroyed,
        BelowTop(ui)`uiType, BelowTop(ui)`order, BelowTop(ui)`isActive,
        BelowTop(ui)`refreshPending, BelowTop(ui)`refreshData, BelowTop(ui)`switchSceneDestroy
      ensures Valid() && Closed(ui)
    {
      var st := Keep(stack, {ui.uiTypeName});
      ghost var w := TopRecord(st);
      ghost var top := if st == [] then "" else st[|st| - 1];
      if w != null {
        assert w.uiTypeName == top != ui.uiTypeName;
      }
      ghost var below, ws := Snap().(stack := st), if w == null then InitialState else w.State();
      ghost var load := st != [] && Instantiable(top);
      PopAndDismiss(ui, below, w, ws, OrderFrom(st, top, StackUI), Resolves(top, top), load);
      assert Reopening(st) == ReopenedTop(below, w, ws.refreshPending, ws.refreshData,
        if w == null then TopRecord(st) else null, load);
    }

    /** CloseStack in terms of what re-opening the top name reads; the
        parameters are those of PopStack. */
    method PopAndDismiss(ui: UIBase, ghost below: Snapshot, ghost w: UIBase?, ghost ws: UIState,
                         ghost ord: int, ghost res: bool, ghost load: bool)
      requires Valid() && IsFiled(Snap(), ui) && below == Snap().(stack := Keep(stack, {ui.uiTypeName}))
      requires w == TopRecord(below.stack) && (w != null ==> ws == w.State() && w != ui)
      requires below.stack != [] ==> var top := below.stack[|below.stack| - 1];
        ord == OrderFrom(below.stack, top, StackUI) && res == Resolves(top, top) && load == Instantiable(top)
      requires below.stack == [] ==> !load
      modifies this`registry, this`keys, this`stack, this`overlays, this`openUIs, this`dispatched,
        this`loads, this`releases, ui`isActive, ui`commonUIs, ui`destroyed,
        Only(w)`uiType, Only(w)`order, Only(w)`isActive,
        Only(w)`refreshPending, Only(w)`refreshData, Only(w)`switchSceneDestroy
      ensures Valid() && ui.uiTypeName !in registry
      ensures ui.State() == old(ui.State()).(isActive := false, commonUIs := [], destroyed := true)
      ensures Snap() == Removed(ReopenedTop(below, w, ws.refreshPending, ws.refreshData,
        if w == null then TopRecord(below.stack) else null, load), ui)
      ensures var r := TopRecord(below.stack); below.stack != [] ==>
        && RecordReopened(below.stack[|below.stack| - 1], r, w, ws, ord, res)
        && (w == null && r != null ==> r !in below.registry.Values)
    {
      var st := below.stack;
      PopStack(ui, below, w, ws, ord, res, load);
      assert st != [] ==> st[|st| - 1] != ui.uiTypeName;
      assert TopRecord(st) != null ==> TopRecord(st).uiTypeName == st[|st| - 1];
      Dismiss(ui, st);
    }

    /** The last lines of closeUIInRoot: SetUIActive(false), then removeUI. */
    method Dismiss(ui: UIBase, ghost st: seq<string>)
      requires Valid() && IsFiled(Snap(), ui)
      requires st != [] ==> st[|st| - 1] != ui.uiTypeName && TopRecord(st) != ui
      modifies this`stack, this`overlays, this`openUIs, this`registry, this`keys, this`releases,
        ui`isActive, ui`commonUIs, ui`destroyed
      ensures Valid() && Snap() == Removed(old(Snap()), ui) && ui.uiTypeName !in registry
      ensures ui.State() == old(ui.State()).(isActive := false, commonUIs := [], destroyed := true)
      ensures TopRecord(st) == old(TopRecord(st)) && (TopRecord(st) != null ==> unchanged(TopRecord(st)))
    {
      SetUIActive(ui, false);
      RemoveUI(ui);
      RemovedRegistry(old(Snap()), ui);
    }

    /** The overlay case of closeUIInRoot's switch. */
    method PopOverlay(ui: UIBase)
      requires Valid()
      modifies this`overlays
      ensures Valid() && Snap() == old(Snap()).(overlays := Keep(old(overlays), {ui}))
    {
      ghost var s1 := Snap().(overlays := Keep(overlays, {ui}));
      ListsShrink(Snap(), ui);
      RemoveIsKeep(overlays, ui);
      DropOverlay(ui);
      assert Snap() == s1;
    }

    /** List.Remove on the overlay list, which has no duplicates. */
    method DropOverlay(ui: UIBase)
      requires Remove(overlays, ui) == Keep(overlays, {ui})
      modifies this`overlays
      ensures overlays == Keep(old(overlays), {ui})
    {
      overlays := Remove(overlays, ui);
    }

    /** The stack case of closeUIInRoot's switch: ui's name leaves the stack
        list and the new top name, if any, is re-opened as a stack window;
        below and the other ghost parameters are the collections with the
        name off the stack list and what re-opening the top name reads. */
    method PopStack(ui: UIBase, ghost below: Snapshot, ghost w: UIBase?, ghost ws: UIState,
                    ghost ord: int, ghost res: bool, ghost load: bool)
      requires Valid() && IsFiled(Snap(), ui) && below == Snap().(stack := Keep(stack, {ui.uiTypeName}))
      requires w == TopRecord(below.stack) && (w != null ==> ws == w.State())
      requires below.stack != [] ==> var top := below.stack[|below.stack| - 1];
        ord == OrderFrom(below.stack, top, StackUI) && res == Resolves(top, top) && load == Instantiable(top)
      requires below.stack == [] ==> !load
      modifies this`registry, this`keys, this`stack, this`overlays, this`openUIs, this`dispatched,
        this`loads, this`releases,
        Only(w)`uiType, Only(w)`order, Only(w)`isActive,
        Only(w)`refreshPending, Only(w)`refreshData, Only(w)`switchSceneDestroy
      ensures Valid() && IsFiled(Snap(), ui) && unchanged(ui)
      ensures Snap() == ReopenedTop(below, w, ws.refreshPending, ws.refreshData,
        if w == null then TopRecord(below.stack) else null, load)
      ensures var r := TopRecord(below.stack); below.stack != [] ==>
        && RecordReopened(below.stack[|below.stack| - 1], r, w, ws, ord, res)
        && (w == null && r != null ==> r !in below.registry.Values)
    {
      DropName(ui);
      if |stack| > 0 {
        ReopenTop(ui, ord, below, w, ws, res, load);
      }
    }

    /** openUIInRoot(top, StackUI) on the name on top of a consistent stack
        list, which tears nothing down and keeps every other record filed. */
    method ReopenTop(ui: UIBase, ghost ord: int, ghost below: Snapshot, ghost w: UIBase?,
                     ghost ws: UIState, ghost res: bool, ghost load: bool)
      requires Valid() && IsFiled(Snap(), ui) && |stack| > 0 && ui.uiTypeName !in stack
      requires ord == OrderOnOpen(stack[|stack| - 1], StackUI) && below == Snap()
      requires w == TopRecord(stack) && (w != null ==> ws == w.State())
      requires res == Resolves(stack[|stack| - 1], stack[|stack| - 1])
      requires load == Instantiable(stack[|stack| - 1])
      modifies this`registry, this`keys, this`stack, this`overlays, this`openUIs, this`dispatched,
        this`loads, this`releases,
        FiledAs(stack[|stack| - 1])`uiType, FiledAs(stack[|stack| - 1])`order,
        FiledAs(stack[|stack| - 1])`isActive, FiledAs(stack[|stack| - 1])`refreshPending,
        FiledAs(stack[|stack| - 1])`refreshData, FiledAs(stack[|stack| - 1])`switchSceneDestroy
      ensures Valid() && IsFiled(Snap(), ui) && unchanged(ui)
      ensures Snap() == ReopenedTop(below, w, ws.refreshPending, ws.refreshData,
        if w == null then TopRecord(below.stack) else null, load)
      ensures var r := TopRecord(below.stack);
        && RecordReopened(below.stack[|below.stack| - 1], r, w, ws, ord, res)
        && (w == null && r != null ==> r !in below.registry.Values)
    {
      // both branches make the same openUIInRoot call
      if stack[|stack| - 1] in registry {
        ReopenFound(ui, ord, below, w, ws, res, load);
      } else {
        ReopenMissing(ui, ord, below, w, ws, res, load);
      }
    }

    /** ReopenTop when a record is filed under the top name. */
    method ReopenFound(ui: UIBase, ghost ord: int, ghost below: Snapshot, ghost w: UIBase?,
                     ghost ws: UIState, ghost res: bool, ghost load: bool)
      requires Valid() && IsFiled(Snap(), ui) && |stack| > 0 && ui.uiTypeName !in stack
      requires ord == OrderOnOpen(stack[|stack| - 1], StackUI) && below == Snap()
      requires w == TopRecord(stack) && (w != null ==> ws == w.State())
      requires res == Resolves(stack[|stack| - 1], stack[|stack| - 1])
      requires load == Instantiable(stack[|stack| - 1])
      requires stack[|stack| - 1] in registry
      modifies this`registry, this`keys, this`stack, this`overlays, this`openUIs, this`dispatched,
        this`loads, this`releases,
        FiledAs(stack[|stack| - 1])`uiType, FiledAs(stack[|stack| - 1])`order,
        FiledAs(stack[|stack| - 1])`isActive, FiledAs(stack[|stack| - 1])`refreshPending,
        FiledAs(stack[|stack| - 1])`refreshData, FiledAs(stack[|stack| - 1])`switchSceneDestroy
      ensures Valid() && IsFiled(Snap(), ui) && unchanged(ui)
      ensures Snap() == ReopenedTop(below, w, ws.refreshPending, ws.refreshData,
        if w == null then TopRecord(below.stack) else null, load)
      ensures var r := TopRecord(below.stack);
        && RecordReopened(below.stack[|below.stack| - 1], r, w, ws, ord, res)
        && (w == null && r != null ==> r !in below.registry.Values)
    {
      var top := stack[|stack| - 1];
      BelowTopUnfiled(stack, registry, overlays);
      assert registry[top].uiTypeName == top;
      assert CoveredIn(below, top, StackUI) == null;
      assert OpenName(top, "") == top && ui !in FiledAs(top);
      OpenUIInRoot(top, StackUI, true, "");
      PlacedUncovered(below, w, StackUI, ws.refreshPending, ws.refreshData);
    }

    /** ReopenTop when nothing is filed under the top name. */
    method ReopenMissing(ui: UIBase, ghost ord: int, ghost below: Snapshot, ghost w: UIBase?,
                     ghost ws: UIState, ghost res: bool, ghost load: bool)
      requires Valid() && IsFiled(Snap(), ui) && |stack| > 0 && ui.uiTypeName !in stack
      requires ord == OrderOnOpen(stack[|stack| - 1], StackUI) && below == Snap()
      requires w == TopRecord(stack) && (w != null ==> ws == w.State())
      requires res == Resolves(stack[|stack| - 1], stack[|stack| - 1])
      requires load == Instantiable(stack[|stack| - 1])
      requires stack[|stack| - 1] !in registry
      modifies this`registry, this`keys, this`stack, this`overlays, this`openUIs, this`dispatched,
        this`loads, this`releases,
        FiledAs(stack[|stack| - 1])`uiType, FiledAs(stack[|stack| - 1])`order,
        FiledAs(stack[|stack| - 1])`isActive, FiledAs(stack[|stack| - 1])`refreshPending,
        FiledAs(stack[|stack| - 1])`refreshData, FiledAs(stack[|stack| - 1])`switchSceneDestroy
      ensures Valid() && IsFiled(Snap(), ui) && unchanged(ui)
      ensures Snap() == ReopenedTop(below, w, ws.refreshPending, ws.refreshData,
        if w == null then TopRecord(below.stack) else null, load)
      ensures var r := TopRecord(below.stack);
        && RecordReopened(below.stack[|below.stack| - 1], r, w, ws, ord, res)
        && (w == null && r != null ==> r !in below.registry.Values)
    {
      // both branches make the same openUIInRoot call
      if Resolves(stack[|stack| - 1], stack[|stack| - 1]) {
        ReopenCreated(ui, ord, below, w, ws, res, load);
      } else {
        ReopenUnresolved(ui, ord, below, w, ws, res, load);
      }
    }

    /** ReopenMissing when the top name resolves to a window class: a record
        is created, filed and placed. */
    method ReopenCreated(ui: UIBase, ghost ord: int, ghost below: Snapshot, ghost w: UIBase?,
                     ghost ws: UIState, ghost res: bool, ghost load: bool)
      requires Valid() && IsFiled(Snap(), ui) && |stack| > 0 && ui.uiTypeName !in stack
      requires ord == OrderOnOpen(stack[|stack| - 1], StackUI) && below == Snap()
      requires w == TopRecord(stack) && (w != null ==> ws == w.State())
      requires res == Resolves(stack[|stack| - 1], stack[|stack| - 1])
      requires load == Instantiable(stack[|stack| - 1])
      requires stack[|stack| - 1] !in registry
      requires res
      modifies this`registry, this`keys, this`stack, this`overlays, this`openUIs, this`dispatched,
        this`loads, this`releases,
        FiledAs(stack[|stack| - 1])`uiType, FiledAs(stack[|stack| - 1])`order,
        FiledAs(stack[|stack| - 1])`isActive, FiledAs(stack[|stack| - 1])`refreshPending,
        FiledAs(stack[|stack| - 1])`refreshData, FiledAs(stack[|stack| - 1])`switchSceneDestroy
      ensures Valid() && IsFiled(Snap(), ui) && unchanged(ui)
      ensures Snap() == ReopenedTop(below, w, ws.refreshPending, ws.refreshData,
        if w == null then TopRecord(below.stack) else null, load)
      ensures var r := TopRecord(below.stack);
        && RecordReopened(below.stack[|below.stack| - 1], r, w, ws, ord, res)
        && (w == null && r != null ==> r !in below.registry.Values)
    {
      var top := stack[|stack| - 1];
      assert w == null;
      BelowTopUnfiled(stack, registry, overlays);
      assert CoveredIn(below, top, StackUI) == null;
      // openUIInRoot(top, StackUI) takes its branch for a name nothing is filed under
      OpenNew(top, top, StackUI, true);
      assert below == old(Snap());
      assert below.stack != [];
      assert ui.uiTypeName !in below.stack;
      assert old(Valid());
      assert IsFiled(below, ui);
      assert below.stack[|below.stack| - 1] == top;
      assert top !in below.registry;
      assert old(Resolves(top, top));
      assert OpenedNew(top, top, StackUI, true);
      CreatedOnTop(ui, below, ws, load);
      CreatedOnTopRecord(below, ws, ord);
    }

    /** openUIInRoot(top, StackUI) when nothing is filed under the top name
        and its class resolves: the new record is filed under it and placed,
        nothing is torn down, and every other record stays filed. */
    twostate lemma CreatedOnTop(new ui: UIBase, new below: Snapshot, new ws: UIState, new load: bool)
      requires below == old(Snap()) && below.stack != [] && ui.uiTypeName !in below.stack
      requires old(Valid()) && IsFiled(below, ui)
      requires var top := below.stack[|below.stack| - 1];
        top !in below.registry && old(Resolves(top, top))
      requires OpenedNew(below.stack[|below.stack| - 1], below.stack[|below.stack| - 1], StackUI, true)
      ensures var r := TopRecord(below.stack);
        && r != null && r !in below.registry.Values && IsFiled(Snap(), ui)
        && Snap() == ReopenedTop(below, null, ws.refreshPending, ws.refreshData, r, load)
    {
      var top := below.stack[|below.stack| - 1];
      BelowTopUnfiled(below.stack, below.registry, below.overlays);
      assert CoveredIn(below, top, StackUI) == null;
      var r := registry[top];
      CreatedCovered(below, top, r, StackUI);
      assert CoveredIn(Created(below, top, r), r.uiTypeName, StackUI) == null;
      PlacedUncovered(Created(below, top, r), r, StackUI, false, null);
    }

    /** The record CreatedOnTop files: a new component of the top name's
        class in the initial state of an opened stack window. */
    twostate lemma CreatedOnTopRecord(new below: Snapshot, new ws: UIState, new ord: int)
      requires below == old(Snap()) && below.stack != []
      requires var top := below.stack[|below.stack| - 1];
        top !in below.registry && old(Resolves(top, top)) && ord == old(OrderOnOpen(top, StackUI))
      requires OpenedNew(below.stack[|below.stack| - 1], below.stack[|below.stack| - 1], StackUI, true)
      ensures RecordReopened(below.stack[|below.stack| - 1], TopRecord(below.stack), null, ws, ord, true)
    {
    }

    /** ReopenMissing when the top name does not resolve: at most a load is
        asked for. */
    method ReopenUnresolved(ui: UIBase, ghost ord: int, ghost below: Snapshot, ghost w: UIBase?,
                     ghost ws: UIState, ghost res: bool, ghost load: bool)
      requires Valid() && IsFiled(Snap(), ui) && |stack| > 0 && ui.uiTypeName !in stack
      requires ord == OrderOnOpen(stack[|stack| - 1], StackUI) && below == Snap()
      requires w == TopRecord(stack) && (w != null ==> ws == w.State())
      requires res == Resolves(stack[|stack| - 1], stack[|stack| - 1])
      requires load == Instantiable(stack[|stack| - 1])
      requires stack[|stack| - 1] !in registry
      requires !res
      modifies this`registry, this`keys, this`stack, this`overlays, this`openUIs, this`dispatched,
        this`loads, this`releases,
        FiledAs(stack[|stack| - 1])`uiType, FiledAs(stack[|stack| - 1])`order,
        FiledAs(stack[|stack| - 1])`isActive, FiledAs(stack[|stack| - 1])`refreshPending,
        FiledAs(stack[|stack| - 1])`refreshData, FiledAs(stack[|stack| - 1])`switchSceneDestroy
      ensures Valid() && IsFiled(Snap(), ui) && unchanged(ui)
      ensures Snap() == ReopenedTop(below, w, ws.refreshPending, ws.refreshData,
        if w == null then TopRecord(below.stack) else null, load)
      ensures var r := TopRecord(below.stack);
        && RecordReopened(below.stack[|below.stack| - 1], r, w, ws, ord, res)
        && (w == null && r != null ==> r !in below.registry.Values)
    {
      var top := stack[|stack| - 1];
      BelowTopUnfiled(stack, registry, overlays);
      assert CoveredIn(below, top, StackUI) == null;
      assert OpenName(top, "") == top && FiledAs(top) == {};
      OpenUIInRoot(top, StackUI, true, "");
    }

    /** List.Remove on the stack list: the window's name leaves it. */
    method DropName(ui: UIBase)
      requires Valid()
      modifies this`stack
      ensures Valid() && Snap() == old(Snap()).(stack := Keep(old(stack), {ui.uiTypeName}))
      ensures var st := stack; |st| > 0 ==> OrderOnOpen(st[|st| - 1], StackUI) == old(OrderFrom(st, st[|st| - 1], StackUI))
    {
      ghost var s1 := Snap().(stack := Keep(stack, {ui.uiTypeName}));
      ListsShrink(Snap(), ui);
      RemoveIsKeep(stack, ui.uiTypeName);
      stack := Remove(stack, ui.uiTypeName);
      assert Snap() == s1;
      if |stack| > 0 {
        OrderKept(stack, stack[|stack| - 1], StackUI);
      }
    }

    // ------------------------------------------------------------ common UI

    /** AddCommonUI: caches the object under the path unless the path is
        already cached. */
    method AddCommonUI(path: string, ui: Prefab)
      modifies this`commonUI
      ensures commonUI == if path in old(commonUI) then old(commonUI) else old(commonUI)[path := ui]
    {
      if path !in commonUI {
        commonUI := commonUI[path := ui];
      }
    }

    /** The foreach loop of ClearCommonUI: ResourceManager.Release on each
        of the names, once each. */
    method ReleaseEach(names: set<string>)
      modifies this`releases
      ensures releases == old(releases) + multiset(names)
    {
      var todo := names;
      ghost var done: set<string> := {};
      while todo != {}
        invariant todo + done == names && todo !! done
        invariant releases == old(releases) + multiset(done)
        decreases |todo|
      {
        var kv :| kv in todo;
        releases := releases + multiset{kv};
        assert multiset(done + {kv}) == multiset(done) + multiset{kv};
        done := done + {kv};
        todo := todo - {kv};
      }
      assert done == names;
    }

    /** ClearCommonUI: releases every cached path, once each, and empties
        the cache. */
    method ClearCommonUI()
      requires Valid()
      modifies this`commonUI, this`releases
      ensures Valid()
      ensures commonUI == map[]
      ensures Snap() == old(Snap()).(releases := old(releases) + multiset(old(commonUI).Keys))
    {
      ghost var s0 := Snap();
      ReleaseEach(commonUI.Keys);
      assert Snap() == s0.(releases := releases);
      commonUI := map[];
    }

    /** createUI<T>(path, uiMount): instantiates the cached object, adds a
        component of class T marked loaded, and lists it among uiMount's
        common sub-windows; null when the path is not cached. The new
        component is not registered. */
    method CreateUI(path: string, typeName: string, uiMount: UIBase) returns (t: UIBase?)
      modifies uiMount`commonUIs
      ensures path !in commonUI <==> t == null
      ensures path !in commonUI ==> uiMount.commonUIs == old(uiMount.commonUIs)
      ensures t != null ==>
        && fresh(t) && t.typeName == typeName && t.objName == commonUI[path].name + "(Clone)"
        && t.State() == InitialState.(showUILoaded := true)
        && uiMount.commonUIs == old(uiMount.commonUIs) + [t]
    {
      if path !in commonUI {
        // UTLog.Error: the path was not preloaded
        return null;
      }
      var showuiobj := commonUI[path].name + "(Clone)";
      t := new UIBase(showuiobj, typeName, "");
      uiMount.commonUIs := uiMount.commonUIs + [t];
      // _OnLoadedShowUI
      t.showUILoaded := true;
    }
  }
}
