/**
 * Activation of tree-view nodes (src/gotoForTreeView.ts), shared by both
 * hierarchy views. `ccls.gotoForTreeView` jumps to a node's location.
 * `ccls.hackGotoForTreeView` is what a click runs: a leaf jumps at once,
 * while a node with children only jumps on the second of two quick clicks
 * on it, so that a single click can expand it instead.
 *
 * The clock and the configured double-click timeout are parameters; both
 * readings of the clock in one activation are the same `now`.
 */
module GotoForTreeView {
  import opened Wrappers
  import opened Lsp

  /** The part of a hierarchy node the commands look at. */
  datatype LocatableNode = LocatableNode(id: NodeId, location: Option<Location>)

  /** A request to reveal `position` in the document `uri`. */
  datatype Jump = Jump(uri: string, position: Position, preserveFocus: bool)

  /**
   * `ccls.gotoForTreeView`: nothing for a node without a location, else a
   * jump to the start of its range that keeps the focus in the tree.
   */
  function GotoForTreeView(node: LocatableNode): (j: Option<Jump>)
    ensures j.None? <==> node.location.None?
    ensures j.Some? ==>
      j.value.uri == node.location.value.uri &&
      j.value.position == node.location.value.range.start &&
      j.value.preserveFocus
  {
    match node.location
    case None => None
    case Some(loc) => Some(Jump(loc.uri, loc.range.start, true))
  }

  /** The two closure variables of the click handler; `lastGotoNodeId` starts out undefined. */
  datatype ClickState = ClickState(lastGotoNodeId: Option<NodeId>, lastGotoClickTime: int)

  /** What one activation does: the next click state and the jump it makes, if any. */
  datatype Outcome = Outcome(next: ClickState, jump: Option<Jump>)

  /**
   * One activation of `node` at time `now`: a node without a location is
   * ignored; a leaf jumps without touching the state; a node other than the
   * last one clicked is remembered with the time; a second click on the
   * same node restarts the timer and jumps when it came within the timeout.
   */
  function Click(s: ClickState, node: LocatableNode, hasChildren: bool, now: int, doubleClickTimeMs: int)
    : (o: Outcome)
    ensures node.location.None? ==> o == Outcome(s, None)
    ensures node.location.Some? && !hasChildren ==> o == Outcome(s, GotoForTreeView(node))
    ensures node.location.Some? && hasChildren && s.lastGotoNodeId != Some(node.id) ==>
      o == Outcome(ClickState(Some(node.id), now), None)
    ensures node.location.Some? && hasChildren && s.lastGotoNodeId == Some(node.id) ==>
      o.next == ClickState(s.lastGotoNodeId, now) &&
      (o.jump.Some? <==> now - s.lastGotoClickTime < doubleClickTimeMs) &&
      (o.jump.Some? ==> o.jump == GotoForTreeView(node))
  {
    if node.location.None? then Outcome(s, None)
    else if !hasChildren then Outcome(s, GotoForTreeView(node))
    else if s.lastGotoNodeId != Some(node.id) then Outcome(ClickState(Some(node.id), now), None)
    else
      var elapsed := now - s.lastGotoClickTime;
      Outcome(ClickState(s.lastGotoNodeId, now), if elapsed < doubleClickTimeMs then GotoForTreeView(node) else None)
  }

  /** The handler registered as `ccls.hackGotoForTreeView`, with its closure variables as fields. */
  class ClickDisambiguator {
    var lastGotoNodeId: Option<NodeId>
    var lastGotoClickTime: int

    constructor ()
      ensures lastGotoNodeId == None
    {
      lastGotoNodeId := None;
      lastGotoClickTime := 0;
    }

    function State(): ClickState
      reads this
    {
      ClickState(lastGotoNodeId, lastGotoClickTime)
    }

    method HackGotoForTreeView(node: LocatableNode, hasChildren: bool, now: int, doubleClickTimeMs: int)
      returns (jump: Option<Jump>)
      modifies this
      ensures Outcome(State(), jump) == Click(old(State()), node, hasChildren, now, doubleClickTimeMs)
    {
      jump := None;
      if node.location.None? {
        return;
      }
      if !hasChildren {
        jump := GotoForTreeView(node);
        return;
      }
      if lastGotoNodeId != Some(node.id) {
        lastGotoNodeId := Some(node.id);
        lastGotoClickTime := now;
        return;
      }
      var elapsed := now - lastGotoClickTime;
      lastGotoClickTime := now;
      if elapsed < doubleClickTimeMs {
        jump := GotoForTreeView(node);
      }
    }
  }

  /**
   * Two clicks on a located node with children, the first on a node that was
   * not the last one clicked: the first never jumps, the second jumps exactly
   * when it came within the timeout.
   */
  lemma DoubleClick(s: ClickState, node: LocatableNode, t1: int, t2: int, timeout: int)
    requires node.location.Some? && s.lastGotoNodeId != Some(node.id)
    ensures var first := Click(s, node, true, t1, timeout);
      var second := Click(first.next, node, true, t2, timeout);
      first.jump.None? && (second.jump.Some? <==> t2 - t1 < timeout) &&
      second.next == ClickState(Some(node.id), t2)
  {
  }

  /**
   * A slow second click does not forget the node: it restarts the timer, so
   * a third click that comes quickly after it jumps.
   */
  lemma QuickThirdClick(s: ClickState, node: LocatableNode, t1: int, t2: int, t3: int, timeout: int)
    requires node.location.Some? && s.lastGotoNodeId != Some(node.id)
    requires t2 - t1 >= timeout && t3 - t2 < timeout
    ensures var first := Click(s, node, true, t1, timeout);
      var second := Click(first.next, node, true, t2, timeout);
      var third := Click(second.next, node, true, t3, timeout);
      first.jump.None? && second.jump.None? && third.jump == GotoForTreeView(node)
  {
  }

  /** Clicking another node in between starts the pairing over: the next click on the first node does not jump. */
  lemma InterleavedClicks(s: ClickState, a: LocatableNode, b: LocatableNode, t1: int, t2: int, t3: int, timeout: int)
    requires a.location.Some? && b.location.Some? && a.id != b.id
    ensures var first := Click(s, a, true, t1, timeout);
      var second := Click(first.next, b, true, t2, timeout);
      var third := Click(second.next, a, true, t3, timeout);
      second.jump.None? && third.jump.None? && third.next == ClickState(Some(a.id), t3)
  {
  }

  /** Leaves and nodes without a location never change the click state. */
  lemma StateOnlyForParents(s: ClickState, node: LocatableNode, hasChildren: bool, now: int, timeout: int)
    requires node.location.None? || !hasChildren
    ensures Click(s, node, hasChildren, now, timeout).next == s
  {
  }
}
