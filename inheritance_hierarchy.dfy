/**
 * The inheritance hierarchy view (src/inheritanceHierarchy.ts).
 *
 * Nodes are objects the view holds on to; expanding a node overwrites its
 * `children` in place, and every node remembers, in `wantsDerived`, which
 * direction (derived or base classes) its own expansion must ask for. The
 * root is built from two backend replies: the derived classes of the symbol
 * under the cursor, then its base classes, which are hung under a synthetic
 * `[[Base]]` group node put first among the root's children.
 *
 * Each backend reply is an argument of the method that models the `.then`
 * continuation consuming it; `GetChildren` says which request is sent.
 */
module InheritanceHierarchy {
  import opened Wrappers
  import opened Lsp

  /** Reserved name of the synthetic node grouping the base classes. */
  const BaseGroupName: string := "[[Base]]"

  /** What a `$ccls/inheritance` request points at: the cursor, or a node the backend sent earlier. */
  datatype Target =
    | AtPosition(uri: string, position: Position)
    | ById(id: Option<NodeId>, kind: Option<int>)

  /** The parameters of a `$ccls/inheritance` request. */
  datatype InheritanceRequest = InheritanceRequest(
    target: Target, derived: bool, qualified: bool, levels: int, hierarchy: bool)

  /** The request that expands one node in the direction `derived`. */
  function ExpansionRequest(id: Option<NodeId>, kind: Option<int>, derived: bool): (r: InheritanceRequest)
    ensures r.target == ById(id, kind) && r.derived == derived
    ensures !r.qualified && r.levels == 1 && r.hierarchy
  {
    InheritanceRequest(ById(id, kind), derived, false, 1, true)
  }

  class InheritanceHierarchyNode {
    var id: Option<NodeId>
    var kind: Option<int>
    var name: string
    var location: Option<Location>
    var numChildren: int
    var children: seq<InheritanceHierarchyNode>
    /** If true, expanding this node asks for derived classes, otherwise for base classes. */
    var wantsDerived: bool
    /** This node and its materialised subtree. */
    ghost var Repr: set<InheritanceHierarchyNode>

    /**
     * The node heads a tree, as every backend reply does: each child's
     * subtree lies inside this one, and `Repr` is exactly the node and its
     * children's subtrees. Reads only the shape, so that stamping
     * `wantsDerived` keeps it.
     */
    ghost predicate Valid()
      reads this`children, this`Repr, Repr`children, Repr`Repr
      decreases Repr
    {
      this in Repr &&
      (forall c :: c in children ==> c in Repr && c.Repr <= Repr && this !in c.Repr) &&
      Repr == {this} + Footprint(children) &&
      (forall c :: c in children ==> c.Valid())
    }

    /**
     * `new InheritanceHierarchyNode()` followed by the assignments that make
     * it the `[[Base]]` group of the base-class reply's children `cs`. Its
     * `wantsDerived` is left unset until it is stamped.
     */
    constructor BaseGroup(cs: seq<InheritanceHierarchyNode>)
      requires forall c :: c in cs ==> c.Valid()
      ensures Valid() && Repr == {this} + Footprint(cs)
      ensures id == None && kind == None && name == BaseGroupName && location == None
      ensures children == cs && numChildren == |cs|
    {
      id := None;
      kind := None;
      name := BaseGroupName;
      location := None;
      numChildren := |cs|;
      children := cs;
      Repr := {this} + Footprint(cs);
      new;
      FootprintCovers(cs);
    }

    /**
     * `InheritanceHierarchyNode.setWantsDerived`: sets the flag of `node` and
     * of every node of its materialised subtree to `value`. The frame allows
     * no other change.
     */
    static method SetWantsDerived(node: InheritanceHierarchyNode, value: bool)
      requires node.Valid()
      modifies node.Repr`wantsDerived
      decreases node.Repr, 0
      ensures forall m :: m in node.Repr ==> m.wantsDerived == value
    {
      FootprintAvoids(node.children, node);
      SetWantsDerivedAll(node.children, value);
      node.wantsDerived := value;
    }

    /** Stamps every subtree of the valid nodes `cs` with `value`, one child after another. */
    static method SetWantsDerivedAll(cs: seq<InheritanceHierarchyNode>, value: bool)
      requires forall c :: c in cs ==> c.Valid()
      modifies Footprint(cs)`wantsDerived
      decreases Footprint(cs), 1
      ensures forall m :: m in Footprint(cs) ==> m.wantsDerived == value
    {
      FootprintCovers(cs);
      ghost var done: set<InheritanceHierarchyNode> := {};
      var i := 0;
      while i < |cs|
        invariant 0 <= i <= |cs|
        invariant done == Footprint(cs[..i])
        invariant forall m :: m in done ==> m.wantsDerived == value
      {
        SetWantsDerived(cs[i], value);
        assert cs[..i + 1][..i] == cs[..i];
        done := done + cs[i].Repr;
        i := i + 1;
      }
      assert cs[..i] == cs;
    }
  }

  /** The union of the subtrees of `cs`. */
  ghost function Footprint(cs: seq<InheritanceHierarchyNode>): set<InheritanceHierarchyNode>
    reads (set c | c in cs)`Repr
    decreases |cs|
  {
    if cs == [] then {} else Footprint(cs[..|cs| - 1]) + cs[|cs| - 1].Repr
  }

  /** Every subtree of a child lies inside the footprint of the children. */
  lemma {:induction false} FootprintCovers(cs: seq<InheritanceHierarchyNode>)
    ensures forall c :: c in cs ==> c.Repr <= Footprint(cs)
    decreases |cs|
  {
    if cs != [] {
      FootprintCovers(cs[..|cs| - 1]);
      assert forall c :: c in cs ==> c in cs[..|cs| - 1] || c == cs[|cs| - 1];
    }
  }

  /** A node outside every child's subtree is outside their footprint. */
  lemma {:induction false} FootprintAvoids(cs: seq<InheritanceHierarchyNode>, x: InheritanceHierarchyNode)
    requires forall c :: c in cs ==> x !in c.Repr
    ensures x !in Footprint(cs)
    decreases |cs|
  {
    if cs != [] {
      FootprintAvoids(cs[..|cs| - 1], x);
    }
  }

  /** Every node of the footprint lies in the subtree of one of the children. */
  lemma {:induction false} FootprintWitness(cs: seq<InheritanceHierarchyNode>, m: InheritanceHierarchyNode)
    returns (c: InheritanceHierarchyNode)
    requires m in Footprint(cs)
    ensures c in cs && m in c.Repr
    decreases |cs|
  {
    if m in cs[|cs| - 1].Repr {
      c := cs[|cs| - 1];
    } else {
      c := FootprintWitness(cs[..|cs| - 1], m);
    }
  }

  /** Every node of a valid tree heads a valid subtree of it. */
  lemma {:induction false} SubtreeValid(n: InheritanceHierarchyNode, m: InheritanceHierarchyNode)
    requires n.Valid() && m in n.Repr
    ensures m.Valid() && m.Repr <= n.Repr
    decreases n.Repr
  {
    if m != n {
      var c := FootprintWitness(n.children, m);
      SubtreeValid(c, m);
    }
  }

  /** No node of `s` has a child outside `s`. */
  ghost predicate Closed(s: set<InheritanceHierarchyNode>)
    reads s`children
  {
    forall n, c :: n in s && c in n.children ==> c in s
  }

  /** The subtree of a valid node is closed under children. */
  lemma ValidClosed(n: InheritanceHierarchyNode)
    requires n.Valid()
    ensures Closed(n.Repr)
  {
    forall m, c | m in n.Repr && c in m.children
      ensures c in n.Repr
    {
      SubtreeValid(n, m);
      assert c in m.Repr;
    }
  }

  /** The nodes below a valid node's children are closed under children. */
  lemma ValidClosedBelow(n: InheritanceHierarchyNode)
    requires n.Valid()
    ensures Footprint(n.children) <= n.Repr && Closed(Footprint(n.children))
  {
    forall m, c | m in Footprint(n.children) && c in m.children
      ensures c in Footprint(n.children)
    {
      var top := FootprintWitness(n.children, m);
      SubtreeValid(top, m);
      FootprintCovers(n.children);
      assert c in m.Repr;
    }
  }

  /**
   * Direction invariant over the node set `nodes` with the `[[Base]]` groups
   * `groups`: the set is closed under children, every group asks for base
   * classes, and every other child asks in its parent's direction. Nodes in
   * `except` are exempt as parents; they are not read, so re-linking them
   * keeps the predicate.
   */
  ghost predicate Directed(nodes: set<InheritanceHierarchyNode>, groups: set<InheritanceHierarchyNode>,
                           except: set<InheritanceHierarchyNode>)
    reads (nodes - except)`children, nodes`wantsDerived
  {
    groups <= nodes &&
    (forall g :: g in groups ==> !g.wantsDerived) &&
    (forall n, c :: n in nodes - except && c in n.children ==> c in nodes) &&
    (forall n, c :: n in nodes - except && c in n.children && c !in groups ==> c.wantsDerived == n.wantsDerived)
  }

  /** A closed set stamped with one direction, whose groups ask for base classes, is directed. */
  lemma Uniform(s: set<InheritanceHierarchyNode>, groups: set<InheritanceHierarchyNode>, value: bool)
    requires Closed(s) && groups <= s
    requires forall m :: m in s ==> m.wantsDerived == value
    requires forall g :: g in groups ==> !g.wantsDerived
    ensures Directed(s, groups, {})
  {
  }

  /** Two disjoint directed sets make a directed set. */
  lemma Union(a: set<InheritanceHierarchyNode>, ga: set<InheritanceHierarchyNode>,
              b: set<InheritanceHierarchyNode>, gb: set<InheritanceHierarchyNode>)
    requires Directed(a, ga, {}) && Directed(b, gb, {}) && a !! b
    ensures Directed(a + b, ga + gb, {})
  {
  }

  /** Exempting a node from the parent rule weakens the invariant. */
  lemma Exempt(nodes: set<InheritanceHierarchyNode>, groups: set<InheritanceHierarchyNode>,
               e: InheritanceHierarchyNode)
    requires Directed(nodes, groups, {})
    ensures Directed(nodes, groups, {e})
  {
  }

  /** A node whose children are in the set and follow its direction rejoins the invariant. */
  lemma Relink(nodes: set<InheritanceHierarchyNode>, groups: set<InheritanceHierarchyNode>,
               e: InheritanceHierarchyNode)
    requires Directed(nodes, groups, {e})
    requires forall c :: c in e.children ==> c in nodes
    requires forall c :: c in e.children && c !in groups ==> c.wantsDerived == e.wantsDerived
    ensures Directed(nodes, groups, {})
  {
  }

  /** `p` follows parent-to-child links. */
  ghost predicate IsPath(p: seq<InheritanceHierarchyNode>)
    reads (set n | n in p)`children
  {
    forall i :: 0 <= i < |p| - 1 ==> p[i + 1] in p[i].children
  }

  /** What `getChildren` answers at once: the nodes, or the request it sends. */
  datatype Children =
    | Ready(nodes: seq<InheritanceHierarchyNode>)
    | Pending(request: InheritanceRequest)

  class InheritanceHierarchyProvider {
    /** The root of the open session, or null when no hierarchy is shown. */
    var root: InheritanceHierarchyNode?
    /** Every node this provider has handed to the view, in this session or an earlier one. */
    ghost var Nodes: set<InheritanceHierarchyNode>
    /** The `[[Base]]` group nodes among them. */
    ghost var BaseGroups: set<InheritanceHierarchyNode>

    /**
     * Direction invariant: a node's flag equals its parent's, except that a
     * `[[Base]]` group is always false; the root is true. The node set is
     * closed under children.
     */
    ghost predicate Valid()
      reads this, Nodes`children, Nodes`wantsDerived
    {
      (root != null ==> root in Nodes && root.wantsDerived) &&
      Directed(Nodes, BaseGroups, {})
    }

    constructor ()
      ensures Valid() && root == null
    {
      root := null;
      Nodes := {};
      BaseGroups := {};
    }

    /**
     * `getTreeItem`: the label, collapse state and activation command the
     * view shows for `element`.
     */
    function GetTreeItem(element: InheritanceHierarchyNode): (item: TreeItem)
      reads element
      ensures item.collapsibleState == NotCollapsible <==> element.numChildren <= 0
      ensures item.collapsibleState == Expanded <==>
        element.numChildren > 0 && |element.children| > 0 && element.name != BaseGroupName
      ensures |element.name| <= |item.labelText| && item.labelText[..|element.name|] == element.name
      ensures item.labelText == element.name <==> element.name == BaseGroupName || element.location.None?
      ensures item.labelText != element.name ==>
        item.labelText[|element.name|..] == LocationSuffix(element.location.value)
      ensures item.command.command == HackGotoCommand
      ensures item.command.hasChildren <==> element.numChildren > 0
      ensures item.contextValue == ContextValue && item.iconPath == None
    {
      var state :=
        if element.numChildren <= 0 then NotCollapsible
        else if |element.children| > 0 && element.name != BaseGroupName then Expanded
        else Collapsed;
      var labelText :=
        if element.name != BaseGroupName && element.location.Some?
        then element.name + LocationSuffix(element.location.value)
        else element.name;
      TreeItem(labelText, state, ContextValue, ActivationCommand(element.numChildren), None)
    }

    /**
     * `getChildren`: nothing when no session is open, the root for the
     * view's top level, the cached children of a fully expanded node, and
     * otherwise one request for the node's children in its own direction.
     */
    function GetChildren(element: InheritanceHierarchyNode?): (r: Children)
      reads this, element
      ensures root == null ==> r == Ready([])
      ensures root != null && element == null ==> r == Ready([root])
      ensures r.Pending? <==>
        root != null && element != null && element.numChildren != |element.children|
      ensures r.Pending? ==>
        r.request.target == ById(element.id, element.kind) &&
        r.request.derived == element.wantsDerived &&
        r.request.levels == 1 && !r.request.qualified && r.request.hierarchy
      ensures r.Ready? && root != null && element != null ==> r.nodes == element.children
    {
      if root == null then Ready([])
      else if element == null then Ready([root])
      else if element.numChildren == |element.children| then Ready(element.children)
      else Pending(ExpansionRequest(element.id, element.kind, element.wantsDerived))
    }

    /**
     * The continuation of an expansion request: `element`'s children become
     * the reply's children, each stamped with `element`'s direction. The
     * node's `numChildren` is left as it was.
     */
    method OnChildrenReply(element: InheritanceHierarchyNode, result: InheritanceHierarchyNode)
      returns (r: seq<InheritanceHierarchyNode>)
      requires Valid() && element in Nodes
      requires result.Valid() && result.Repr !! Nodes
      modifies this`Nodes, element`children, Footprint(result.children)`wantsDerived
      ensures Valid()
      ensures r == result.children && element.children == result.children
      ensures forall m :: m in old(Footprint(result.children)) ==> m.wantsDerived == element.wantsDerived
      ensures Nodes == old(Nodes + Footprint(result.children))
      ensures root != null && element.numChildren == |result.children| ==> GetChildren(element) == Ready(r)
    {
      ghost var added := Footprint(result.children);
      ValidClosedBelow(result);
      InheritanceHierarchyNode.SetWantsDerivedAll(result.children, element.wantsDerived);
      Uniform(added, {}, element.wantsDerived);
      Union(Nodes, BaseGroups, added, {});
      Exempt(Nodes + added, BaseGroups, element);
      element.children := result.children;
      FootprintCovers(result.children);
      Relink(Nodes + added, BaseGroups, element);
      Nodes := Nodes + added;
      r := result.children;
    }

    /** The request of the `ccls.inheritanceHierarchy` command: derived classes of the symbol at the cursor. */
    static function OpenRequest(uri: string, position: Position): (r: InheritanceRequest)
      ensures r.target == AtPosition(uri, position) && r.derived
      ensures !r.qualified && r.levels == 1 && r.hierarchy
    {
      InheritanceRequest(AtPosition(uri, position), true, false, 1, true)
    }

    /**
     * First continuation of the command: the derived-classes reply `entry`
     * is stamped derived throughout, and the base-classes request for the
     * same symbol is sent.
     */
    static method OnDerivedReply(entry: InheritanceHierarchyNode) returns (baseRequest: InheritanceRequest)
      requires entry.Valid()
      modifies entry.Repr`wantsDerived
      ensures forall m :: m in entry.Repr ==> m.wantsDerived
      ensures baseRequest == ExpansionRequest(entry.id, entry.kind, false)
    {
      InheritanceHierarchyNode.SetWantsDerived(entry, true);
      baseRequest := ExpansionRequest(entry.id, entry.kind, false);
    }

    /**
     * Second continuation: when the base-classes reply has children they are
     * grouped under a fresh `[[Base]]` node, stamped base throughout and put
     * first among `entry`'s children, whose count grows by one. Either way
     * `entry` becomes the root.
     */
    method OnBaseReply(entry: InheritanceHierarchyNode, parentEntry: InheritanceHierarchyNode)
      requires Valid()
      requires entry.Valid() && parentEntry.Valid()
      requires forall m :: m in entry.Repr ==> m.wantsDerived
      requires entry.Repr !! Nodes && parentEntry.Repr !! Nodes && entry.Repr !! parentEntry.Repr
      modifies this, entry`children, entry`numChildren, Footprint(parentEntry.children)`wantsDerived
      ensures Valid() && root == entry
      ensures forall m :: m in entry.Repr ==> m.wantsDerived
      ensures parentEntry.numChildren > 0 ==>
        |entry.children| == |old(entry.children)| + 1 &&
        entry.children[1..] == old(entry.children) &&
        entry.numChildren == old(entry.numChildren) + 1 &&
        fresh(entry.children[0]) && entry.children[0] in BaseGroups &&
        entry.children[0].name == BaseGroupName && entry.children[0].location == None &&
        entry.children[0].children == parentEntry.children &&
        entry.children[0].numChildren == |parentEntry.children| &&
        (forall m :: m in entry.children[0].Repr ==> !m.wantsDerived)
      ensures parentEntry.numChildren <= 0 ==>
        entry.children == old(entry.children) && entry.numChildren == old(entry.numChildren)
    {
      ghost var entryNodes := entry.Repr;
      ValidClosed(entry);
      Uniform(entryNodes, {}, true);
      Union(Nodes, BaseGroups, entryNodes, {});
      if parentEntry.numChildren > 0 {
        var parentWrapper := MakeBaseGroup(parentEntry);
        AttachBaseGroup(entry, entryNodes, parentWrapper);
      } else {
        Nodes := Nodes + entryNodes;
      }
      root := entry;
    }

    /**
     * The stamped `[[Base]]` group `g` is put in front of `entry`'s
     * children; the provider's nodes grow by the entry's and the group's.
     */
    method AttachBaseGroup(entry: InheritanceHierarchyNode, ghost entryNodes: set<InheritanceHierarchyNode>,
                           g: InheritanceHierarchyNode)
      requires Directed(Nodes + entryNodes, BaseGroups, {}) && entry in entryNodes
      requires forall m :: m in entryNodes ==> m.wantsDerived
      requires g in g.Repr && Closed(g.Repr) && forall m :: m in g.Repr ==> !m.wantsDerived
      requires entryNodes !! Nodes && g.Repr !! Nodes && entryNodes !! g.Repr
      modifies this`Nodes, this`BaseGroups, entry`children, entry`numChildren
      ensures Directed(Nodes, BaseGroups, {}) && old(Nodes) + entryNodes <= Nodes && g in BaseGroups
      ensures entry.children == [g] + old(entry.children) && entry.numChildren == old(entry.numChildren) + 1
    {
      ghost var groupNodes := g.Repr;
      Uniform(groupNodes, {g}, false);
      Union(Nodes + entryNodes, BaseGroups, groupNodes, {g});
      ghost var all := Nodes + entryNodes + groupNodes;
      Exempt(all, BaseGroups + {g}, entry);
      assert forall c :: c in entry.children ==> c in all;
      entry.children := [g] + entry.children;
      entry.numChildren := entry.numChildren + 1;
      Relink(all, BaseGroups + {g}, entry);
      Nodes := all;
      BaseGroups := BaseGroups + {g};
    }

    /** The `[[Base]]` group over the base-class reply `parentEntry`'s children, stamped base throughout. */
    static method MakeBaseGroup(parentEntry: InheritanceHierarchyNode) returns (g: InheritanceHierarchyNode)
      requires parentEntry.Valid()
      modifies Footprint(parentEntry.children)`wantsDerived
      ensures fresh(g) && g in g.Repr && Closed(g.Repr) && g.Repr == {g} + Footprint(parentEntry.children)
      ensures g.id == None && g.kind == None && g.name == BaseGroupName && g.location == None
      ensures g.children == parentEntry.children && g.numChildren == |parentEntry.children|
      ensures forall m :: m in g.Repr ==> !m.wantsDerived
    {
      SubtreeValidAll(parentEntry);
      g := new InheritanceHierarchyNode.BaseGroup(parentEntry.children);
      InheritanceHierarchyNode.SetWantsDerived(g, false);
      ValidClosed(g);
    }

    /** The children of a valid node are valid. */
    static lemma SubtreeValidAll(n: InheritanceHierarchyNode)
      requires n.Valid()
      ensures forall c :: c in n.children ==> c.Valid()
    {
    }

    /** `ccls.closeInheritanceHierarchy`: the session ends and the view shows nothing. */
    method Close()
      requires Valid()
      modifies this`root
      ensures Valid() && root == null
      ensures forall e: InheritanceHierarchyNode? :: GetChildren(e) == Ready([])
    {
      root := null;
    }

    /**
     * The direction a node expands in is decided by its nearest stamping
     * ancestor: along any path from the root, the last node asks for derived
     * classes exactly when no `[[Base]]` group lies on the path.
     */
    lemma {:induction false} PathDirection(p: seq<InheritanceHierarchyNode>)
      requires Valid() && root != null
      requires |p| >= 1 && p[0] == root && IsPath(p)
      ensures forall k :: 0 <= k < |p| ==> p[k] in Nodes
      ensures p[|p| - 1].wantsDerived <==> forall k :: 0 <= k < |p| ==> p[k] !in BaseGroups
    {
      if |p| > 1 {
        var q := p[..|p| - 1];
        assert IsPath(q) by {
          forall i | 0 <= i < |q| - 1 ensures q[i + 1] in q[i].children {
            assert p[i + 1] in p[i].children;
          }
        }
        PathDirection(q);
        assert p[|p| - 1] in p[|p| - 2].children;
        forall k | 0 <= k < |p| ensures p[k] in Nodes {
          if k < |p| - 1 { assert p[k] == q[k]; }
        }
        assert (forall k :: 0 <= k < |p| ==> p[k] !in BaseGroups) <==>
               (forall k :: 0 <= k < |q| ==> q[k] !in BaseGroups) && p[|p| - 1] !in BaseGroups;
      }
    }
  }
}
