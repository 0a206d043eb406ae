/** The command tree of src/structs/node.h and the notions every other module needs about it.
    A node is identified by its address, here the number `id`. The parts of a C node that never
    change while the tree is wired and executed (type, arguments, operands) are this datatype. */
module Nodes {

  datatype Option<+T> = None | Some(value: T)

  datatype Kind = And | Or | Semicolon | Pipe

  datatype Node =
    | Executable(id: nat, argv: seq<string>)
    | Operands(id: nat, kind: Kind, nodes: seq<Node>)

  /** The addresses of all nodes of a tree. */
  ghost function Ids(n: Node): set<nat> {
    match n
    case Executable(id, _) => {id}
    case Operands(id, _, nodes) => {id} + set i, x | 0 <= i < |nodes| && x in Ids(nodes[i]) :: x
  }

  /** The addresses of the executables of a tree. */
  function Execs(n: Node): set<nat> {
    match n
    case Executable(id, _) => {id}
    case Operands(_, _, nodes) => set i, x | 0 <= i < |nodes| && x in Execs(nodes[i]) :: x
  }

  /** All nodes are different objects. */
  ghost predicate Distinct(n: Node) {
    n.Operands? ==>
      && (forall i :: 0 <= i < |n.nodes| ==> n.id !in Ids(n.nodes[i]))
      && (forall i, j :: 0 <= i < j < |n.nodes| ==> Ids(n.nodes[i]) !! Ids(n.nodes[j]))
      && (forall i :: 0 <= i < |n.nodes| ==> Distinct(n.nodes[i]))
  }

  /** Every operator has an operand. */
  ghost predicate NonEmpty(n: Node) {
    n.Operands? ==> |n.nodes| > 0 && forall i :: 0 <= i < |n.nodes| ==> NonEmpty(n.nodes[i])
  }

  ghost predicate WellFormed(n: Node) {
    Distinct(n) && NonEmpty(n)
  }

  // ---- positions in a tree

  ghost predicate ValidPath(n: Node, p: seq<nat>) {
    p == [] || (n.Operands? && p[0] < |n.nodes| && ValidPath(n.nodes[p[0]], p[1..]))
  }

  ghost function At(n: Node, p: seq<nat>): Node
    requires ValidPath(n, p)
  {
    if p == [] then n else At(n.nodes[p[0]], p[1..])
  }

  lemma {:induction false} ExecsAreIds(n: Node)
    ensures Execs(n) <= Ids(n)
  {
    if n.Operands? {
      forall i | 0 <= i < |n.nodes| ensures Execs(n.nodes[i]) <= Ids(n.nodes[i]) {
        ExecsAreIds(n.nodes[i]);
      }
    }
  }

  /** The node at a path belongs to the tree and is as well formed as the tree. */
  lemma {:induction false} AtFacts(n: Node, p: seq<nat>)
    requires ValidPath(n, p)
    ensures At(n, p).id in Ids(n) && Ids(At(n, p)) <= Ids(n)
    ensures Execs(At(n, p)) <= Execs(n)
    ensures Distinct(n) ==> Distinct(At(n, p))
    ensures NonEmpty(n) ==> NonEmpty(At(n, p))
    ensures At(n, p).Executable? ==> At(n, p).id in Execs(n)
  {
    if p != [] {
      AtFacts(n.nodes[p[0]], p[1..]);
    }
  }

  lemma {:induction false} PathTo(n: Node, x: nat) returns (p: seq<nat>)
    requires x in Ids(n)
    ensures ValidPath(n, p) && At(n, p).id == x
  {
    if x == n.id {
      p := [];
    } else {
      var i :| 0 <= i < |n.nodes| && x in Ids(n.nodes[i]);
      var q := PathTo(n.nodes[i], x);
      p := [i] + q;
      assert p[1..] == q;
    }
  }

  /** In a tree of distinct nodes two paths to the same address are the same path. */
  lemma {:induction false} PathsUnique(n: Node, p: seq<nat>, q: seq<nat>)
    requires Distinct(n) && ValidPath(n, p) && ValidPath(n, q)
    requires At(n, p).id == At(n, q).id
    ensures p == q
  {
    if p != [] { AtFacts(n.nodes[p[0]], p[1..]); }
    if q != [] { AtFacts(n.nodes[q[0]], q[1..]); }
    if p != [] && q != [] {
      assert p[0] == q[0];
      PathsUnique(n.nodes[p[0]], p[1..], q[1..]);
      assert p == [p[0]] + p[1..] && q == [q[0]] + q[1..];
    }
  }

  lemma {:induction false} ExtendPath(n: Node, p: seq<nat>, k: nat)
    requires ValidPath(n, p)
    requires At(n, p).Operands? && k < |At(n, p).nodes|
    ensures ValidPath(n, p + [k]) && At(n, p + [k]) == At(n, p).nodes[k]
  {
    if p != [] {
      ExtendPath(n.nodes[p[0]], p[1..], k);
      assert (p + [k])[1..] == p[1..] + [k];
    } else {
      assert (p + [k])[1..] == [];
    }
  }

  lemma {:induction false} ParentPath(n: Node, p: seq<nat>)
    requires ValidPath(n, p) && p != []
    ensures ValidPath(n, p[..|p| - 1])
    ensures var f := At(n, p[..|p| - 1]);
            f.Operands? && p[|p| - 1] < |f.nodes| && f.nodes[p[|p| - 1]] == At(n, p)
  {
    if |p| > 1 {
      ParentPath(n.nodes[p[0]], p[1..]);
      assert p[..|p| - 1][1..] == p[1..][..|p| - 2];
    } else {
      assert p[1..] == [];
    }
  }

  /** The father of the node at a path, None for the root. */
  ghost function FatherAt(n: Node, p: seq<nat>): (father: Option<Node>)
    requires ValidPath(n, p)
    ensures father.None? <==> p == []
  {
    if p == [] then None else if |p| == 1 then Some(n) else FatherAt(n.nodes[p[0]], p[1..])
  }

  lemma {:induction false} FatherIsParent(n: Node, p: seq<nat>, k: nat)
    requires ValidPath(n, p + [k]) && ValidPath(n, p)
    ensures FatherAt(n, p + [k]) == Some(At(n, p))
  {
    if p != [] {
      assert (p + [k])[1..] == p[1..] + [k];
      FatherIsParent(n.nodes[p[0]], p[1..], k);
    }
  }

  lemma {:induction false} OperatorIsNoExecutable(n: Node, p: seq<nat>)
    requires Distinct(n) && ValidPath(n, p) && At(n, p).Operands?
    ensures At(n, p).id !in Execs(n)
  {
    if p == [] {
      forall i | 0 <= i < |n.nodes| ensures n.id !in Execs(n.nodes[i]) {
        ExecsAreIds(n.nodes[i]);
      }
    } else {
      OperatorIsNoExecutable(n.nodes[p[0]], p[1..]);
      AtFacts(n.nodes[p[0]], p[1..]);
      forall i | 0 <= i < |n.nodes| && i != p[0] ensures At(n, p).id !in Execs(n.nodes[i]) {
        ExecsAreIds(n.nodes[i]);
      }
    }
  }

  lemma OperandsApart(n: Node)
    requires Distinct(n) && n.Operands?
    ensures forall i :: 0 <= i < |n.nodes| ==> n.id !in Ids(n.nodes[i]) && Ids(n.nodes[i]) <= Ids(n)
    ensures forall i, j :: 0 <= i < |n.nodes| && 0 <= j < |n.nodes| && i != j ==> Ids(n.nodes[i]) !! Ids(n.nodes[j])
  {
    forall i, j | 0 <= i < |n.nodes| && 0 <= j < |n.nodes| && i != j ensures Ids(n.nodes[i]) !! Ids(n.nodes[j]) {
      if j < i {
        assert Ids(n.nodes[j]) !! Ids(n.nodes[i]);
      }
    }
  }

  // ---- sums over a tree

  /** What `f` yields at the nodes of a tree, all together. */
  ghost function Gather<T>(n: Node, f: Node -> multiset<T>): multiset<T>
    decreases n, 1
  {
    f(n) + if n.Operands? then GatherAll(n.nodes, f) else multiset{}
  }

  ghost function GatherAll<T>(nodes: seq<Node>, f: Node -> multiset<T>): multiset<T>
    decreases nodes, 0
  {
    if nodes == [] then multiset{} else Gather(nodes[0], f) + GatherAll(nodes[1..], f)
  }

  /** `f` at the nodes whose address is in `keys`, nothing elsewhere. */
  ghost function Among<T>(f: Node -> multiset<T>, keys: set<nat>): Node -> multiset<T> {
    (n: Node) => if n.id in keys then f(n) else multiset{}
  }

  lemma {:induction false} GatherCongruent<T>(n: Node, f: Node -> multiset<T>, g: Node -> multiset<T>)
    requires forall m: Node :: m.id in Ids(n) ==> f(m) == g(m)
    ensures Gather(n, f) == Gather(n, g)
    decreases n, 1
  {
    assert n.id in Ids(n);
    if n.Operands? {
      GatherAllCongruent(n.nodes, f, g);
    }
  }

  lemma {:induction false} GatherAllCongruent<T>(nodes: seq<Node>, f: Node -> multiset<T>, g: Node -> multiset<T>)
    requires forall i, m: Node :: 0 <= i < |nodes| && m.id in Ids(nodes[i]) ==> f(m) == g(m)
    ensures GatherAll(nodes, f) == GatherAll(nodes, g)
    decreases nodes, 0
  {
    if nodes != [] {
      GatherCongruent(nodes[0], f, g);
      GatherAllCongruent(nodes[1..], f, g);
    }
  }

  lemma GatherElsewhere<T>(nodes: seq<Node>, f: Node -> multiset<T>, keys: set<nat>, x: nat)
    requires forall i :: 0 <= i < |nodes| ==> x !in Ids(nodes[i])
    ensures GatherAll(nodes, Among(f, keys + {x})) == GatherAll(nodes, Among(f, keys))
  {
    GatherAllCongruent(nodes, Among(f, keys + {x}), Among(f, keys));
  }

  /** Adding one node of the tree to `keys` adds its share to the sum. */
  lemma {:induction false} GatherAdd<T>(n: Node, p: seq<nat>, f: Node -> multiset<T>, keys: set<nat>)
    requires Distinct(n) && ValidPath(n, p) && At(n, p).id !in keys
    ensures Gather(n, Among(f, keys + {At(n, p).id})) == Gather(n, Among(f, keys)) + f(At(n, p))
    decreases n
  {
    hide Ids, GatherAll;
    var x := At(n, p).id;
    if n.Operands? {
      OperandsApart(n);
    }
    if p == [] {
      if n.Operands? {
        GatherElsewhere(n.nodes, f, keys, x);
      }
    } else {
      var k := p[0];
      AtFacts(n.nodes[k], p[1..]);
      GatherAdd(n.nodes[k], p[1..], f, keys);
      GatherElsewhere(n.nodes[..k], f, keys, x);
      GatherElsewhere(n.nodes[k + 1..], f, keys, x);
      GatherSplit(n.nodes, k, Among(f, keys));
      GatherSplit(n.nodes, k, Among(f, keys + {x}));
    }
  }

  lemma {:induction false} GatherSplit<T>(nodes: seq<Node>, k: nat, f: Node -> multiset<T>)
    requires k < |nodes|
    ensures GatherAll(nodes, f) == GatherAll(nodes[..k], f) + Gather(nodes[k], f) + GatherAll(nodes[k + 1..], f)
  {
    hide Gather;
    if k > 0 {
      GatherSplit(nodes[1..], k - 1, f);
      assert nodes[1..][..k - 1] == nodes[..k][1..] && nodes[1..][k..] == nodes[k + 1..];
    }
  }

  lemma {:induction false} AmongAtMost<T>(n: Node, f: Node -> multiset<T>, keys: set<nat>)
    ensures Gather(n, Among(f, keys)) <= Gather(n, f)
    decreases n, 1
  {
    if n.Operands? {
      AllAmongAtMost(n.nodes, f, keys);
    }
  }

  lemma {:induction false} AllAmongAtMost<T>(nodes: seq<Node>, f: Node -> multiset<T>, keys: set<nat>)
    ensures GatherAll(nodes, Among(f, keys)) <= GatherAll(nodes, f)
    decreases nodes, 0
  {
    if nodes != [] {
      AmongAtMost(nodes[0], f, keys);
      AllAmongAtMost(nodes[1..], f, keys);
    }
  }

  lemma {:induction false} GatherNothing<T>(n: Node, f: Node -> multiset<T>)
    ensures Gather(n, Among(f, {})) == multiset{}
    decreases n, 1
  {
    if n.Operands? {
      GatherAllNothing(n.nodes, f);
    }
  }

  lemma {:induction false} GatherAllNothing<T>(nodes: seq<Node>, f: Node -> multiset<T>)
    ensures GatherAll(nodes, Among(f, {})) == multiset{}
    decreases nodes, 0
  {
    if nodes != [] {
      GatherNothing(nodes[0], f);
      GatherAllNothing(nodes[1..], f);
    }
  }
}
