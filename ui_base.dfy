/** The per-window record (the UIBase component) with the fields the UI
    manager reads and writes. */
module UIWindow {
  import opened UITypes

  /** An opaque object handed to a window as a refresh payload. */
  class Payload { }

  /** A loaded GameObject kept in the common-UI cache. */
  class Prefab {
    /** The name of the GameObject. */
    const name: string

    constructor (name: string)
      ensures this.name == name
    {
      this.name := name;
    }
  }

  /** The field values of a component just added to a GameObject. */
  const InitialState := UIState(None, 0, false, false, false, null, false, [], false)

  /** The mutable fields of a window, as one value. */
  datatype UIState = UIState(
    uiType: UIType,
    order: int,
    isActive: bool,
    showUILoaded: bool,
    refreshPending: bool,
    refreshData: Payload?,
    switchSceneDestroy: bool,
    commonUIs: seq<UIBase>,
    destroyed: bool)

  /** A refresh payload is held only while a refresh is pending: refreshUI
      and the flush of openUIInRoot write the flag and the payload together. */
  predicate RefreshPaired(st: UIState) {
    st.refreshData != null ==> st.refreshPending
  }

  /** A new component is paired; refreshUI's deferral keeps the pairing; and
      the flush keeps it exactly when it held before. */
  lemma PairingKept(st: UIState, data: Payload?)
    ensures RefreshPaired(InitialState)
    ensures RefreshPaired(st.(refreshPending := true, refreshData := data))
    ensures RefreshPaired(st.(refreshPending := false,
      refreshData := if st.refreshPending then null else st.refreshData)) == RefreshPaired(st)
  {
  }

  /** A window component. */
  class UIBase {
    /** The name of the GameObject the component sits on. */
    const objName: string
    /** The Name of the component's class, which decides the casts `ui as T`. */
    const typeName: string
    /** The registry key the manager filed the window under. */
    const uiTypeName: string

    /** mUIType */
    var uiType: UIType
    /** _miUIOder, also used as the canvas sortingOrder */
    var order: int
    /** isActive, kept equal to the GameObject's active flag by SetUIActive */
    var isActive: bool
    /** bShowUILoaded: the visual content has been attached */
    var showUILoaded: bool
    /** refreshFuncCallBack: a refresh is waiting to be delivered */
    var refreshPending: bool
    /** refreshFuncData: the payload of the waiting refresh */
    var refreshData: Payload?
    /** isSwichSceneDestroy */
    var switchSceneDestroy: bool
    /** CommonUIList: the common sub-windows created on behalf of this one */
    var commonUIs: seq<UIBase>
    /** The GameObject was destroyed (Object.DestroyImmediate) */
    var destroyed: bool

    /** A freshly added component, with the initial field values of UIBase. */
    constructor (objName: string, typeName: string, uiTypeName: string)
      ensures this.objName == objName && this.typeName == typeName && this.uiTypeName == uiTypeName
      ensures State() == InitialState
    {
      this.objName := objName;
      this.typeName := typeName;
      this.uiTypeName := uiTypeName;
      uiType := None;
      order := 0;
      isActive := false;
      showUILoaded := false;
      refreshPending := false;
      refreshData := null;
      switchSceneDestroy := false;
      commonUIs := [];
      destroyed := false;
    }

    /** The current values of the mutable fields. */
    function State(): UIState
      reads this
    {
      UIState(uiType, order, isActive, showUILoaded, refreshPending, refreshData,
              switchSceneDestroy, commonUIs, destroyed)
    }
  }
}
