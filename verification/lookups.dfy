/** The searches of src/structs/node.c. Nodes are compared by address. */
module Lookups {
  import opened Nodes
  import opened Streams

  ghost predicate FirstAt(nodes: seq<Node>, i: int, id: nat) {
    0 <= i < |nodes| && nodes[i].id == id && forall j :: 0 <= j < i ==> nodes[j].id != id
  }

  /** The operand after `child`, NULL if `child` is the last operand or no operand at all. */
  method FindNextNodeInOperands(father: Node, child: Node) returns (next: Option<Node>)
    requires father.Operands?
    ensures next.Some? ==> exists i :: 0 <= i < |father.nodes| - 1 && FirstAt(father.nodes, i, child.id)
                                       && next == Some(father.nodes[i + 1])
    ensures next.None? ==> forall i :: 0 <= i < |father.nodes| - 1 ==> father.nodes[i].id != child.id
  {
    var nextIndex := -1;
    var lastChild := |father.nodes| - 1;
    var i := 0;
    while i < lastChild && nextIndex < 0
      invariant 0 <= i && (i <= lastChild || i == 0)
      invariant nextIndex < 0 ==> forall j :: 0 <= j < i ==> father.nodes[j].id != child.id
      invariant nextIndex >= 0 ==> 0 < i <= lastChild && nextIndex == i && FirstAt(father.nodes, i - 1, child.id)
    {
      if father.nodes[i].id == child.id {
        nextIndex := i + 1;
      }
      i := i + 1;
    }
    next := if nextIndex < 0 then None else Some(father.nodes[nextIndex]);
  }

  /** Entry point of the search by pid: clears the two results, then searches. */
  method FindNodeInTreeWithPid(tree: Node, pid: int, pids: map<nat, int>)
    returns (found: bool, result: Option<Node>, father: Option<Node>, ghost p: seq<nat>)
    requires Execs(tree) <= pids.Keys
    ensures found <==> exists x :: x in Execs(tree) && pids[x] == pid
    ensures found ==> ValidPath(tree, p) && result == Some(At(tree, p)) && result.value.Executable?
    ensures found ==> result.value.id in Execs(tree) && pids[result.value.id] == pid
    ensures found ==> father == FatherAt(tree, p)
    ensures !found ==> result.None? && father.None?
    decreases tree, 1
  {
    found, result, father, p := FindNodeInTreeWithPidR(tree, pid, pids, None, None);
  }

  /** The recursion. It re-enters the entry point, which clears the results found so far; the
      father is therefore set by the first caller that still sees it cleared. */
  method FindNodeInTreeWithPidR(tree: Node, pid: int, pids: map<nat, int>, result0: Option<Node>, father0: Option<Node>)
    returns (found: bool, result: Option<Node>, father: Option<Node>, ghost p: seq<nat>)
    requires Execs(tree) <= pids.Keys
    requires result0.None? && father0.None?
    ensures found <==> exists x :: x in Execs(tree) && pids[x] == pid
    ensures found ==> ValidPath(tree, p) && result == Some(At(tree, p)) && result.value.Executable?
    ensures found ==> result.value.id in Execs(tree) && pids[result.value.id] == pid
    ensures found ==> father == FatherAt(tree, p)
    ensures !found ==> result.None? && father.None?
    decreases tree, 0
  {
    found, result, father, p := false, result0, father0, [];
    if tree.Executable? {
      if pids[tree.id] == pid {
        found, result := true, Some(tree);
      }
      return;
    }
    var i: nat := 0;
    while i < |tree.nodes| && !found
      invariant 0 <= i <= |tree.nodes|
      invariant !found ==> result.None? && father.None?
      invariant !found ==> forall j, x :: 0 <= j < i && x in Execs(tree.nodes[j]) ==> pids[x] != pid
      invariant found ==> ValidPath(tree, p) && result == Some(At(tree, p)) && result.value.Executable?
      invariant found ==> result.value.id in Execs(tree) && pids[result.value.id] == pid
      invariant found ==> p != [] && father == FatherAt(tree, p)
    {
      ghost var q;
      found, result, father, q := FindNodeInTreeWithPid(tree.nodes[i], pid, pids);
      if found && father.None? {
        father := Some(tree);
      }
      p := [i] + q;
      assert p[1..] == q;
      i := i + 1;
    }
  }

  /** The operator that has `child` among its operands, NULL for the root and for strangers. */
  method FindFatherOfNodeInTree(child: Node, tree: Node) returns (father: Option<Node>)
    requires Distinct(tree)
    ensures father.None? <==> child.id == tree.id || child.id !in Ids(tree)
    ensures forall p: seq<nat> :: ValidPath(tree, p) && p != [] && At(tree, p).id == child.id ==>
              father == FatherAt(tree, p)
    decreases tree
  {
    if tree.Operands? {
      var i := 0;
      while i < |tree.nodes|
        invariant 0 <= i <= |tree.nodes|
        invariant forall j :: 0 <= j < i ==> child.id !in Ids(tree.nodes[j])
      {
        if tree.nodes[i].id == child.id {
          father := Some(tree);
          FatherHere(tree, i, child);
          return;
        }
        var res := FindFatherOfNodeInTree(child, tree.nodes[i]);
        if res.Some? {
          father := res;
          FatherBelow(tree, i, child, res);
          return;
        }
        i := i + 1;
      }
    }
    father := None;
    forall p: seq<nat> | ValidPath(tree, p) && p != [] && At(tree, p).id == child.id ensures false {
      AtFacts(tree.nodes[p[0]], p[1..]);
    }
  }

  lemma FatherHere(tree: Node, i: nat, child: Node)
    requires Distinct(tree) && tree.Operands? && i < |tree.nodes| && tree.nodes[i].id == child.id
    ensures child.id in Ids(tree) && child.id != tree.id
    ensures forall p: seq<nat> :: ValidPath(tree, p) && p != [] && At(tree, p).id == child.id ==> p == [i]
  {
    AtFacts(tree.nodes[i], []);
    forall p: seq<nat> | ValidPath(tree, p) && p != [] && At(tree, p).id == child.id ensures p == [i] {
      assert [i][1..] == [];
      assert At(tree, [i]) == tree.nodes[i];
      PathsUnique(tree, p, [i]);
    }
  }

  lemma FatherBelow(tree: Node, i: nat, child: Node, res: Option<Node>)
    requires Distinct(tree) && tree.Operands? && i < |tree.nodes|
    requires child.id in Ids(tree.nodes[i]) && child.id != tree.nodes[i].id
    requires forall p: seq<nat> :: ValidPath(tree.nodes[i], p) && p != [] && At(tree.nodes[i], p).id == child.id ==>
               res == FatherAt(tree.nodes[i], p)
    ensures child.id in Ids(tree) && child.id != tree.id
    ensures forall p: seq<nat> :: ValidPath(tree, p) && p != [] && At(tree, p).id == child.id ==>
              res == FatherAt(tree, p)
  {
    forall p: seq<nat> | ValidPath(tree, p) && p != [] && At(tree, p).id == child.id
      ensures res == FatherAt(tree, p)
    {
      AtFacts(tree.nodes[p[0]], p[1..]);
      assert p[0] == i;
    }
  }

  /** Number of executables of a tree of distinct nodes. */
  method CountExecutablesInTree(node: Node) returns (sum: nat)
    requires Distinct(node)
    ensures sum == |Execs(node)|
  {
    hide Ids;
    if node.Executable? {
      return 1;
    }
    sum := 0;
    ghost var seen: set<nat> := {};
    for i := 0 to |node.nodes|
      invariant forall x :: x in seen <==> exists j :: 0 <= j < i && x in Execs(node.nodes[j])
      invariant sum == |seen|
    {
      var s := CountExecutablesInTree(node.nodes[i]);
      sum := sum + s;
      forall j | 0 <= j < i ensures Execs(node.nodes[j]) !! Execs(node.nodes[i]) {
        ExecsAreIds(node.nodes[j]);
        ExecsAreIds(node.nodes[i]);
      }
      assert seen !! Execs(node.nodes[i]);
      seen := seen + Execs(node.nodes[i]);
    }
    assert seen == Execs(node);
  }

  /** Number of descriptors the table of appender descriptors is allocated for. */
  method CountMaxAppenderFileDescriptors(node: Node) returns (sum: nat)
    ensures sum == MaxFds(node)
  {
    if node.Executable? {
      return 0;
    }
    sum := 0;
    if node.kind != Pipe {
      sum := sum + 2 * |node.nodes| + 2;
    }
    for i := 0 to |node.nodes|
      invariant sum + MaxFdsAll(node.nodes[i..]) == MaxFds(node)
    {
      assert node.nodes[i..][1..] == node.nodes[i + 1..];
      var s := CountMaxAppenderFileDescriptors(node.nodes[i]);
      sum := sum + s;
    }
  }

  /** In a tree of distinct nodes the operand after operand k is operand k + 1. */
  lemma NextOperand(op: Node, k: nat, next: Option<Node>)
    requires Distinct(op) && op.Operands? && k < |op.nodes|
    requires next.Some? ==> exists i :: 0 <= i < |op.nodes| - 1 && FirstAt(op.nodes, i, op.nodes[k].id)
                                        && next == Some(op.nodes[i + 1])
    requires next.None? ==> forall i :: 0 <= i < |op.nodes| - 1 ==> op.nodes[i].id != op.nodes[k].id
    ensures next == if k + 1 < |op.nodes| then Some(op.nodes[k + 1]) else None
  {
    OperandsApart(op);
    forall i | 0 <= i < |op.nodes| && i != k ensures op.nodes[i].id != op.nodes[k].id {
      assert op.nodes[i].id in Ids(op.nodes[i]) && op.nodes[k].id in Ids(op.nodes[k]);
    }
  }

  lemma RootOrBelow(tree: Node, p: seq<nat>)
    requires Distinct(tree) && ValidPath(tree, p)
    ensures At(tree, p).id in Ids(tree)
    ensures p == [] <==> At(tree, p).id == tree.id
  {
    AtFacts(tree, p);
    if p != [] {
      AtFacts(tree.nodes[p[0]], p[1..]);
    }
  }

  /** The father found for the node at a path, and where it is. */
  lemma FatherFound(tree: Node, p: seq<nat>, child: Node, father: Option<Node>)
    requires Distinct(tree) && ValidPath(tree, p) && At(tree, p) == child
    requires father.None? <==> child.id == tree.id || child.id !in Ids(tree)
    requires forall q: seq<nat> :: ValidPath(tree, q) && q != [] && At(tree, q).id == child.id ==>
               father == FatherAt(tree, q)
    ensures father.None? <==> p == []
    ensures p != [] ==> ValidPath(tree, p[..|p| - 1]) && father == Some(At(tree, p[..|p| - 1]))
  {
    hide Ids, Distinct, At;
    RootOrBelow(tree, p);
    if p != [] {
      ParentPath(tree, p);
      assert p == p[..|p| - 1] + [p[|p| - 1]];
      FatherIsParent(tree, p[..|p| - 1], p[|p| - 1]);
    }
  }

  /** Both lookups, one after the other: the father that comes with the executable that has the pid is
      the one the search for its father finds. */
  method LookUpTwice(tree: Node, pid: int, pids: map<nat, int>)
    returns (found: bool, node: Option<Node>, byPid: Option<Node>, bySearch: Option<Node>)
    requires Distinct(tree) && Execs(tree) <= pids.Keys
    ensures found <==> exists x :: x in Execs(tree) && pids[x] == pid
    ensures found ==> node.Some? && node.value.id in Execs(tree) && pids[node.value.id] == pid
    ensures found ==> byPid == bySearch && (byPid.None? <==> node == Some(tree))
    ensures found && byPid.Some? ==> byPid.value.Operands? && node.value in byPid.value.nodes
  {
    hide Ids, Execs, Distinct, At;
    ghost var p;
    bySearch := None;
    found, node, byPid, p := FindNodeInTreeWithPid(tree, pid, pids);
    if found {
      bySearch := FindFatherOfNodeInTree(node.value, tree);
      RootOrBelow(tree, p);
      if p == [] {
        TheRoot(tree);
      } else {
        ParentPath(tree, p);
      }
      FatherFound(tree, p, node.value, bySearch);
    }
  }

  lemma TheRoot(tree: Node)
    ensures At(tree, []) == tree
  {
  }
}
