/**
 * The call hierarchy view (src/callHierarchy.ts): the same lazily expanded
 * tree as the inheritance view, without a direction per node. Each node
 * records how it is called (`callType`), which picks its icon.
 *
 * Backend replies are arguments of the methods that model the `.then`
 * continuations consuming them; `GetChildren` says which request is sent.
 */
module CallHierarchy {
  import opened Wrappers
  import opened Lsp

  /** The `CallType` enumeration. */
  const Normal: int := 0
  const Base: int := 1
  const Derived: int := 2
  const All: int := 3

  /** What a `$ccls/call` request points at: the cursor, or a node the backend sent earlier. */
  datatype CallTarget =
    | AtPosition(uri: string, position: Position)
    | ById(id: Option<NodeId>)

  /** The parameters of a `$ccls/call` request. */
  datatype CallRequest = CallRequest(
    target: CallTarget, callee: bool, callType: int, qualified: bool, levels: int, hierarchy: bool)

  class CallHierarchyNode {
    var id: Option<NodeId>
    var name: string
    var location: Option<Location>
    var callType: int
    /** When this differs from `|children|` the node has not been expanded yet. */
    var numChildren: int
    var children: seq<CallHierarchyNode>
  }

  /** What `getChildren` answers at once: the nodes, or the request it sends. */
  datatype Children =
    | Ready(nodes: seq<CallHierarchyNode>)
    | Pending(request: CallRequest)

  /** The `callType` of the request opening the view: `0x1 | 0x2`, computed bitwise. */
  function OpenCallType(): (t: int)
    ensures t == All && t == Base + Derived
  {
    ((0x1 as bv8) | (0x2 as bv8)) as int
  }

  /** The request of the `ccls.callHierarchy` command: callers of the symbol at the cursor, two levels deep. */
  function OpenRequest(uri: string, position: Position): (r: CallRequest)
    ensures r.target == AtPosition(uri, position)
    ensures !r.callee && r.callType == All && !r.qualified && r.levels == 2 && r.hierarchy
  {
    CallRequest(AtPosition(uri, position), false, OpenCallType(), false, 2, true)
  }

  /** The request that expands one node: all kinds of callers, one level deep. */
  function ExpansionRequest(id: Option<NodeId>): (r: CallRequest)
    ensures r.target == ById(id)
    ensures !r.callee && r.callType == All && !r.qualified && r.levels == 1 && r.hierarchy
  {
    CallRequest(ById(id), false, All, false, 1, true)
  }

  class CallHierarchyProvider {
    /** The root of the open session, or null when no hierarchy is shown. */
    var root: CallHierarchyNode?
    const derivedDark: string
    const derivedLight: string
    const baseDark: string
    const baseLight: string

    constructor (derivedDark: string, derivedLight: string, baseDark: string, baseLight: string)
      ensures root == null
      ensures this.derivedDark == derivedDark && this.derivedLight == derivedLight
      ensures this.baseDark == baseDark && this.baseLight == baseLight
    {
      this.derivedDark := derivedDark;
      this.derivedLight := derivedLight;
      this.baseDark := baseDark;
      this.baseLight := baseLight;
      root := null;
    }

    /** The icon of a node: the base pair, the derived pair, or empty paths for any other call type. */
    function Icon(callType: int): (p: IconPath)
      ensures callType == Base ==> p == IconPath(baseLight, baseDark)
      ensures callType == Derived ==> p == IconPath(derivedLight, derivedDark)
      ensures callType != Base && callType != Derived ==> p == IconPath("", "")
    {
      if callType == Base then IconPath(baseLight, baseDark)
      else if callType == Derived then IconPath(derivedLight, derivedDark)
      else IconPath("", "")
    }

    /**
     * `getTreeItem`: the label, collapse state, icon and activation command
     * the view shows for `element`.
     */
    function GetTreeItem(element: CallHierarchyNode): (item: TreeItem)
      reads element
      ensures item.collapsibleState == NotCollapsible <==> element.numChildren <= 0
      ensures item.collapsibleState == Expanded <==> element.numChildren > 0 && |element.children| > 0
      ensures |element.name| <= |item.labelText| && item.labelText[..|element.name|] == element.name
      ensures item.labelText == element.name <==> element.location.None?
      ensures element.location.Some? ==>
        item.labelText[|element.name|..] == LocationSuffix(element.location.value)
      ensures item.command.command == HackGotoCommand
      ensures item.command.hasChildren <==> element.numChildren > 0
      ensures item.contextValue == ContextValue
      ensures item.iconPath == Some(Icon(element.callType))
    {
      var state :=
        if element.numChildren <= 0 then NotCollapsible
        else if |element.children| > 0 then Expanded
        else Collapsed;
      var labelText :=
        if element.location.Some? then element.name + LocationSuffix(element.location.value)
        else element.name;
      TreeItem(labelText, state, ContextValue, ActivationCommand(element.numChildren),
               Some(Icon(element.callType)))
    }

    /**
     * `getChildren`: nothing when no session is open, the root for the
     * view's top level, the cached children of a fully expanded node, and
     * otherwise one request for the node's callers.
     */
    function GetChildren(element: CallHierarchyNode?): (r: Children)
      reads this, element
      ensures root == null ==> r == Ready([])
      ensures root != null && element == null ==> r == Ready([root])
      ensures r.Pending? <==>
        root != null && element != null && element.numChildren != |element.children|
      ensures r.Pending? ==> r.request == ExpansionRequest(element.id)
      ensures r.Ready? && root != null && element != null ==> r.nodes == element.children
    {
      if root == null then Ready([])
      else if element == null then Ready([root])
      else if element.numChildren == |element.children| then Ready(element.children)
      else Pending(ExpansionRequest(element.id))
    }

    /**
     * The continuation of an expansion request: `element`'s children become
     * the reply's children. Nothing else changes, not even `numChildren`.
     */
    method OnChildrenReply(element: CallHierarchyNode, result: CallHierarchyNode)
      returns (r: seq<CallHierarchyNode>)
      modifies element`children
      ensures r == result.children && element.children == result.children
      ensures element.numChildren == old(element.numChildren)
      ensures root != null && element.numChildren == |r| ==> GetChildren(element) == Ready(r)
    {
      element.children := result.children;
      r := result.children;
    }

    /**
     * The continuation of the open request: the reply becomes the root shown
     * at the top level. A null reply (no symbol at the cursor) becomes the
     * root too, and the view then shows nothing.
     */
    method OnOpenReply(callNode: CallHierarchyNode?)
      modifies this`root
      ensures root == callNode
      ensures GetChildren(null) == if callNode == null then Ready([]) else Ready([callNode])
    {
      root := callNode;
    }

    /** `ccls.closeCallHierarchy`: the session ends and the view shows nothing. */
    method Close()
      modifies this`root
      ensures root == null
      ensures forall e: CallHierarchyNode? :: GetChildren(e) == Ready([])
    {
      root := null;
    }
  }
}
