/** NodeManagerBase: the list of nodes, their reference lists, and what getNode can reach. */
module NodeTree {
  import opened Common
  import opened AsyncResults
  import opened NodeIdText

  /** The node class together with the C++ class that the adders test for. */
  datatype NodeKind = ObjectNode | DataVariable | Property | MethodArgument | OtherVariable | MethodNode | OtherClass

  datatype Reference = Reference(target: UaNode, refType: NodeId)

  class UaNode {
    const nodeId: NodeId
    const kind: NodeKind
    var references: seq<Reference>

    constructor (nodeId: NodeId, kind: NodeKind)
      ensures this.nodeId == nodeId && this.kind == kind && references == []
    {
      this.nodeId := nodeId;
      this.kind := kind;
      references := [];
    }

    method AddReferencedTarget(target: UaNode, refType: NodeId)
      modifies this`references
      ensures references == old(references) + [Reference(target, refType)]
    {
      references := references + [Reference(target, refType)];
    }

    /** The node is among the referenced targets. */
    ghost predicate Refers(target: UaNode)
      reads this
    {
      exists i :: 0 <= i < |references| && references[i].target == target
    }
  }

  /** Every node of the path refers to the next one. */
  ghost predicate IsPath(path: seq<UaNode>)
    reads path
  {
    |path| > 0 && forall i :: 0 <= i < |path| - 1 ==> path[i].Refers(path[i+1])
  }

  datatype Added = Returned(status: StatusCode) | Thrown

  /** What adding a node of this kind returns or throws for the stack's verdict. */
  function Answer(kind: NodeKind, verdict: StatusCode): Added {
    match kind
    case ObjectNode => Returned(verdict)
    case DataVariable => Returned(verdict)
    case MethodArgument => Returned(Good)
    case Property => if verdict == Good then Returned(Good) else Thrown
    case MethodNode => if verdict == Good then Returned(Good) else Thrown
    case _ => Thrown
  }

  /** The node is put on the list. */
  predicate IsListed(kind: NodeKind, verdict: StatusCode) {
    verdict == Good && (kind.ObjectNode? || kind.DataVariable? || kind.MethodNode?)
  }

  /** The parent gets a reference to the node. */
  predicate IsReferred(kind: NodeKind, verdict: StatusCode) {
    IsListed(kind, verdict) || kind.MethodArgument?
  }

  /** The ids that the stack holds more afterwards: a method's arguments come with it. */
  function NewIds(to: UaNode, verdict: StatusCode, extra: set<NodeId>): set<NodeId> {
    if verdict != Good then {}
    else if to.kind.ObjectNode? || to.kind.DataVariable? || to.kind.Property? then {to.nodeId}
    else if to.kind.MethodNode? then {to.nodeId} + extra
    else {}
  }

  class NodeManagerBase {
    const root: UaNode
    var listNodes: seq<UaNode>
    /** The ids in the stack's address space, which refuses to hold one twice. */
    var known: set<NodeId>

    ghost predicate IsParent(p: UaNode)
      reads this
    {
      p == root || p in listNodes
    }

    /** Listed ids are unique, and every listed node hangs below the root or below a node listed before it. */
    ghost predicate Valid()
      reads this, root, listNodes
    {
      && root.nodeId in known
      && (forall i :: 0 <= i < |listNodes| ==> listNodes[i].nodeId in known && listNodes[i].nodeId != root.nodeId)
      && (forall i, j :: 0 <= i < j < |listNodes| ==> listNodes[i].nodeId != listNodes[j].nodeId)
      && (forall i :: 0 <= i < |listNodes| ==> root.Refers(listNodes[i]) || HangsBelow(i))
    }

    ghost predicate HangsBelow(i: nat)
      requires i < |listNodes|
      reads this, listNodes
    {
      exists j :: 0 <= j < i && listNodes[j].Refers(listNodes[i])
    }

    constructor (root: UaNode, known: set<NodeId>)
      requires root.nodeId in known
      ensures Valid() && listNodes == [] && this.root == root && this.known == known
    {
      this.root := root;
      this.known := known;
      listNodes := [];
    }

    ghost predicate Missing(nodeId: NodeId)
      reads this
    {
      root.nodeId != nodeId && forall n :: n in listNodes ==> n.nodeId != nodeId
    }

    method GetNode(nodeId: NodeId) returns (node: UaNode?)
      ensures node == null <==> Missing(nodeId)
      ensures nodeId == root.nodeId ==> node == root
      ensures node == null ==> forall n :: n in listNodes ==> n.nodeId != nodeId
      ensures node != null ==> node.nodeId == nodeId && IsParent(node)
    {
      if nodeId == root.nodeId {
        return root;
      }
      for i := 0 to |listNodes|
        invariant forall j :: 0 <= j < i ==> listNodes[j].nodeId != nodeId
      {
        if listNodes[i].nodeId == nodeId {
          return listNodes[i];
        }
      }
      node := null;
    }

    /**
     * addNodeAndReference with a parent node. `verdict` is the stack's answer, good only for an id it does not hold;
     * `extra` are the ids of method arguments that the stack creates along with a method.
     */
    method AddNodeAndReference(parent: UaNode, to: UaNode, refType: NodeId, verdict: StatusCode, extra: set<NodeId>)
      returns (r: Added)
      requires Valid() && IsParent(parent)
      requires verdict == Good ==> to.nodeId !in known
      modifies this`listNodes, this`known, parent`references
      ensures Valid() && r == Answer(to.kind, verdict)
      ensures (to.kind.ObjectNode? || to.kind.DataVariable? || to.kind.MethodNode?) && verdict == Good ==>
        && r == Returned(Good) && listNodes == old(listNodes) + [to] && to.nodeId in known
        && parent.references == old(parent.references) + [Reference(to, refType)]
      ensures to.kind.Property? && verdict == Good ==>
        && r == Returned(Good) && known == old(known) + {to.nodeId}
        && listNodes == old(listNodes) && parent.references == old(parent.references)
      ensures to.kind.MethodArgument? ==>
        && r == Returned(Good) && known == old(known) && listNodes == old(listNodes)
        && parent.references == old(parent.references) + [Reference(to, refType)]
      ensures to.kind.OtherVariable? || to.kind.OtherClass? || (verdict != Good && !to.kind.MethodArgument?) ==>
        && r == (if to.kind.ObjectNode? || to.kind.DataVariable? then Returned(verdict) else Thrown)
        && known == old(known) && listNodes == old(listNodes) && parent.references == old(parent.references)
      ensures listNodes == old(listNodes) + if IsListed(to.kind, verdict) then [to] else []
      ensures parent.references ==
        old(parent.references) + if IsReferred(to.kind, verdict) then [Reference(to, refType)] else []
      ensures known == old(known) + NewIds(to, verdict, extra)
    {
      match to.kind {
        case ObjectNode =>
          r := AddListed(parent, to, refType, verdict, {});
        case DataVariable =>
          r := AddListed(parent, to, refType, verdict, {});
        case MethodArgument =>
          Refer(parent, to, refType);
          r := Returned(Good);
        case Property =>
          if verdict != Good {
            return Thrown;
          }
          known := known + {to.nodeId};
          r := Returned(verdict);
        case MethodNode =>
          r := AddListed(parent, to, refType, verdict, extra);
          if verdict != Good {
            return Thrown;
          }
        case _ =>
          r := Thrown;
      }
    }

    /** A reference alone changes nothing that Valid is about. */
    method Refer(parent: UaNode, to: UaNode, refType: NodeId)
      requires Valid()
      modifies parent`references
      ensures Valid() && parent.references == old(parent.references) + [Reference(to, refType)]
    {
      parent.AddReferencedTarget(to, refType);
      RefersMore();
    }

    /** Reference lists only grow, so what hung below something still does. */
    twostate lemma RefersMore()
      requires old(Valid()) && unchanged(this)
      requires forall n :: n == root || n in listNodes ==> old(n.references) <= n.references
      ensures Valid()
    {
      forall n, t | (n == root || n in listNodes) && t in listNodes && old(n.Refers(t))
        ensures n.Refers(t)
      {
        var i :| 0 <= i < |old(n.references)| && old(n.references[i].target) == t;
        assert n.references[i].target == t;
      }
      forall i | 0 <= i < |listNodes| && !root.Refers(listNodes[i])
        ensures HangsBelow(i)
      {
        assert old(HangsBelow(i));
        var j :| 0 <= j < i && old(listNodes[j].Refers(listNodes[i]));
        assert listNodes[j].Refers(listNodes[i]);
      }
    }

    /** The part that objects, data variables and methods share once the stack has answered. */
    method AddListed(parent: UaNode, to: UaNode, refType: NodeId, verdict: StatusCode, extra: set<NodeId>)
      returns (r: Added)
      requires Valid() && IsParent(parent)
      requires verdict == Good ==> to.nodeId !in known
      modifies this`listNodes, this`known, parent`references
      ensures Valid() && r == Returned(verdict)
      ensures if verdict == Good then
          && listNodes == old(listNodes) + [to]
          && parent.references == old(parent.references) + [Reference(to, refType)]
          && known == old(known) + {to.nodeId} + extra
        else
          listNodes == old(listNodes) && parent.references == old(parent.references) && known == old(known)
    {
      if verdict == Good {
        Refer(parent, to, refType);
        assert parent.Refers(to) by {
          assert parent.references[|parent.references|-1].target == to;
        }
        label referred:
        known := known + {to.nodeId} + extra;
        listNodes := listNodes + [to];
        forall i | 0 <= i < |listNodes| && !root.Refers(listNodes[i])
          ensures HangsBelow(i)
        {
          if i < |listNodes| - 1 {
            assert old@referred(HangsBelow(i));
            var j :| 0 <= j < i && old@referred(listNodes[j].Refers(listNodes[i]));
            assert listNodes[j].Refers(listNodes[i]);
          } else {
            assert listNodes[i] == to && parent in listNodes[..i];
            var j :| 0 <= j < i && listNodes[j] == parent;
            assert listNodes[j].Refers(listNodes[i]);
          }
        }
      }
      r := Returned(verdict);
    }

    /** addNodeAndReference with a parent id: the parent is looked up, so it needs no assumption on it. */
    method AddById(from: NodeId, to: UaNode, refType: NodeId, verdict: StatusCode, extra: set<NodeId>)
      returns (r: Added)
      requires Valid()
      requires verdict == Good ==> to.nodeId !in known
      modifies this`listNodes, this`known, root`references, listNodes`references
      ensures Valid()
      ensures r == if old(Missing(from)) then Returned(BadNodeIdUnknown) else Answer(to.kind, verdict)
      ensures var found := !old(Missing(from));
        && listNodes == old(listNodes) + (if found && IsListed(to.kind, verdict) then [to] else [])
        && known == old(known) + (if found then NewIds(to, verdict, extra) else {})
        && forall n :: n == root || n in old(listNodes) ==>
             n.references == old(n.references) +
               if n.nodeId == from && IsReferred(to.kind, verdict) then [Reference(to, refType)] else []
    {
      var parent := GetNode(from);
      if parent == null {
        return Returned(BadNodeIdUnknown);
      }
      r := AddNodeAndReference(parent, to, refType, verdict, extra);
    }

    /** The destructor's loop: every listed node is deleted once, the last one first. */
    method Destroy() returns (ghost deleted: seq<UaNode>)
      requires Valid()
      modifies this`listNodes
      ensures listNodes == []
      ensures |deleted| == |old(listNodes)|
      ensures forall i :: 0 <= i < |deleted| ==> deleted[i] == old(listNodes)[|deleted| - 1 - i]
      ensures NoDup(deleted)
    {
      deleted := [];
      while |listNodes| > 0
        invariant listNodes == old(listNodes)[..|listNodes|]
        invariant |deleted| + |listNodes| == |old(listNodes)|
        invariant forall i :: 0 <= i < |deleted| ==> deleted[i] == old(listNodes)[|old(listNodes)| - 1 - i]
      {
        var node := listNodes[|listNodes|-1];
        listNodes := listNodes[..|listNodes|-1];
        deleted := deleted + [node];
      }
    }
  }

  /** An accepted object, data variable or method is what getNode finds under its id; no other node is found anew. */
  method AddThenFind(m: NodeManagerBase, parent: UaNode, to: UaNode, refType: NodeId, verdict: StatusCode)
    returns (found: UaNode?)
    requires m.Valid() && m.IsParent(parent)
    requires verdict == Good ==> to.nodeId !in m.known
    modifies m`listNodes, m`known, parent`references
    ensures (to.kind.ObjectNode? || to.kind.DataVariable? || to.kind.MethodNode?) && verdict == Good ==> found == to
    ensures !(to.kind.ObjectNode? || to.kind.DataVariable? || to.kind.MethodNode?) || verdict != Good ==>
      if old(m.Missing(to.nodeId)) then found == null else found == m.root || found in old(m.listNodes)
  {
    var _ := m.AddNodeAndReference(parent, to, refType, verdict, {});
    found := m.GetNode(to.nodeId);
  }

  /** Every node on the list can be reached from the root through referenced targets. */
  lemma {:induction false} ListedIsReachable(m: NodeManagerBase, i: nat) returns (path: seq<UaNode>)
    requires m.Valid() && i < |m.listNodes|
    ensures IsPath(path) && path[0] == m.root && path[|path|-1] == m.listNodes[i]
    decreases i
  {
    var node := m.listNodes[i];
    if m.root.Refers(node) {
      path := [m.root, node];
    } else {
      assert m.HangsBelow(i);
      var j :| 0 <= j < i && m.listNodes[j].Refers(node);
      var above := ListedIsReachable(m, j);
      path := above + [node];
      assert path[|above|-1].Refers(path[|above|]);
    }
  }

  /** Whatever getNode can return is reachable, and it is the only listed node with its id. */
  lemma FoundIsReachable(m: NodeManagerBase, node: UaNode) returns (path: seq<UaNode>)
    requires m.Valid() && m.IsParent(node)
    ensures IsPath(path) && path[0] == m.root && path[|path|-1] == node
    ensures forall n :: m.IsParent(n) && n.nodeId == node.nodeId ==> n == node
  {
    if node == m.root {
      path := [m.root];
    } else {
      var i :| 0 <= i < |m.listNodes| && m.listNodes[i] == node;
      path := ListedIsReachable(m, i);
    }
  }
}
