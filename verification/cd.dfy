/** Elimination of the cd commands from a command tree (src/parse/builtin.c). */
module CdBuiltin {
  import opened Nodes
  import opened Lookups
  import opened Wire

  /** A two-word cd command. */
  predicate IsCd(n: Node) {
    n.Executable? && |n.argv| == 2 && n.argv[0] == "cd"
  }

  /** The operands that are not cd commands, in order. */
  ghost function Survivors(nodes: seq<Node>): seq<Node> {
    if nodes == [] then []
    else (if IsCd(nodes[0]) then [] else [nodes[0]]) + Survivors(nodes[1..])
  }

  /** The directories of the cd commands among the operands, in order. */
  ghost function Directories(nodes: seq<Node>): seq<string> {
    if nodes == [] then []
    else (if IsCd(nodes[0]) then [nodes[0].argv[1]] else []) + Directories(nodes[1..])
  }

  lemma NoSurvivors()
    ensures Survivors([]) == [] && Directories([]) == []
  {
  }

  lemma FirstSurvivor(nodes: seq<Node>)
    requires nodes != []
    ensures Survivors(nodes) == (if IsCd(nodes[0]) then [] else [nodes[0]]) + Survivors(nodes[1..])
    ensures Directories(nodes) == (if IsCd(nodes[0]) then [nodes[0].argv[1]] else []) + Directories(nodes[1..])
  {
  }

  lemma {:induction false} SurvivorsSnoc(nodes: seq<Node>, k: nat)
    requires k < |nodes|
    ensures Survivors(nodes[..k + 1]) == Survivors(nodes[..k]) + (if IsCd(nodes[k]) then [] else [nodes[k]])
    ensures Directories(nodes[..k + 1]) == Directories(nodes[..k]) + (if IsCd(nodes[k]) then [nodes[k].argv[1]] else [])
  {
    hide IsCd, Survivors, Directories;
    NoSurvivors();
    FirstSurvivor(nodes[..k + 1]);
    if k == 0 {
      assert nodes[..1][1..] == [] && nodes[..0] == [];
    } else {
      FirstSurvivor(nodes[..k]);
      FirstSurvivor(nodes);
      SurvivorsSnoc(nodes[1..], k - 1);
      assert nodes[..k + 1][1..] == nodes[1..][..k] && nodes[..k][1..] == nodes[1..][..k - 1];
    }
  }

  /** Where the elimination is defined: the siblings after a removed cd are executables. */
  ghost predicate CdSafe(n: Node) {
    n.Operands? ==>
      && (forall i :: 0 <= i < |n.nodes| ==> CdSafe(n.nodes[i]))
      && (n.kind != Pipe ==> forall i, j :: 0 <= i < j < |n.nodes| && IsCd(n.nodes[i]) ==> n.nodes[j].Executable?)
  }

  /** operands->nodes[0..count] of each operator and executable->cd of each executable. */
  datatype Store = Store(operands: map<nat, seq<Node>>, cd: map<nat, seq<string>>)

  /** The store of a tree as the parser leaves it. */
  ghost predicate Holds(s: Store, n: Node) {
    && (n.Executable? ==> n.id in s.cd)
    && (n.Operands? ==> n.id in s.operands && s.operands[n.id] == n.nodes
                        && forall i :: 0 <= i < |n.nodes| ==> Holds(s, n.nodes[i]))
  }

  ghost predicate SameElsewhere(ids: set<nat>, s: Store, t: Store) {
    && s.operands.Keys == t.operands.Keys && s.cd.Keys == t.cd.Keys
    && (forall x :: x !in ids && x in s.operands ==> s.operands[x] == t.operands[x])
    && (forall x :: x !in ids && x in s.cd ==> s.cd[x] == t.cd[x])
  }

  /** The directories a node gets from its father's cd commands. */
  ghost function Inherited(n: Node, k: nat): seq<string>
    requires n.Operands? && k < |n.nodes|
  {
    if n.kind != Pipe then Directories(n.nodes[..k])
    else if IsCd(n.nodes[k]) then [n.nodes[k].argv[1]] else []
  }

  /** What the elimination does to a tree. In an And, Or or Semicolon the survivors are the operands
      that are not cd commands, each preceded by the directories of all cds before it; a Pipe keeps
      its operands, and a cd in it is prepared with its own directory. */
  ghost predicate Applied(n: Node, s: Store, t: Store) {
    n.Operands? ==>
      && n.id in t.operands
      && t.operands[n.id] == (if n.kind == Pipe then n.nodes else Survivors(n.nodes))
      && forall k :: 0 <= k < |n.nodes| ==>
           && Applied(n.nodes[k], s, t)
           && (n.nodes[k].Executable? ==>
                 n.nodes[k].id in s.cd && n.nodes[k].id in t.cd
                 && t.cd[n.nodes[k].id] == s.cd[n.nodes[k].id] + Inherited(n, k))
  }

  ghost predicate AgreeOn(ids: set<nat>, s: Store, t: Store) {
    && (forall x :: x in ids ==> (x in s.operands <==> x in t.operands))
    && (forall x :: x in ids && x in s.operands ==> s.operands[x] == t.operands[x])
    && (forall x :: x in ids ==> (x in s.cd <==> x in t.cd) && (x in s.cd ==> s.cd[x] == t.cd[x]))
  }

  lemma {:induction false} AppliedElsewhere(n: Node, s: Store, t: Store, s': Store, t': Store)
    requires Applied(n, s, t) && AgreeOn(Ids(n), s, s') && AgreeOn(Ids(n), t, t')
    ensures Applied(n, s', t')
  {
    assert n.id in Ids(n);
    if n.Operands? {
      forall k | 0 <= k < |n.nodes| ensures Applied(n.nodes[k], s', t') && n.nodes[k].id in Ids(n) {
        AppliedElsewhere(n.nodes[k], s, t, s', t');
        assert n.nodes[k].id in Ids(n.nodes[k]);
      }
    }
  }

  /** t says about the nodes in ids what s says. */
  ghost predicate SameWithin(ids: set<nat>, s: Store, t: Store) {
    && (forall x :: x in ids && x in s.operands ==> x in t.operands && t.operands[x] == s.operands[x])
    && (forall x :: x in ids && x in s.cd ==> x in t.cd && t.cd[x] == s.cd[x])
  }

  lemma {:induction false} HoldsElsewhere(n: Node, s: Store, t: Store)
    requires Holds(s, n) && SameWithin(Ids(n), s, t)
    ensures Holds(t, n)
  {
    assert n.id in Ids(n);
    if n.Operands? {
      forall i | 0 <= i < |n.nodes| ensures Holds(t, n.nodes[i]) {
        HoldsElsewhere(n.nodes[i], s, t);
      }
    }
  }

  ghost predicate HasId(nodes: seq<Node>, x: nat) {
    exists i :: 0 <= i < |nodes| && nodes[i].id == x
  }

  /** Every executable among `nodes` has been given one more directory. */
  ghost function AddAll(cd: map<nat, seq<string>>, nodes: seq<Node>, dir: string): map<nat, seq<string>> {
    map x | x in cd :: if HasId(nodes, x) then cd[x] + [dir] else cd[x]
  }

  lemma AddAllSnoc(cd: map<nat, seq<string>>, nodes: seq<Node>, n: Node, dir: string)
    requires !HasId(nodes, n.id) && n.id in cd
    ensures var a := AddAll(cd, nodes, dir); a[n.id := a[n.id] + [dir]] == AddAll(cd, nodes + [n], dir)
  {
    forall x ensures HasId(nodes + [n], x) <==> HasId(nodes, x) || x == n.id {
      if HasId(nodes, x) {
        var i :| 0 <= i < |nodes| && nodes[i].id == x;
        assert (nodes + [n])[i].id == x;
      }
      assert (nodes + [n])[|nodes|] == n;
    }
  }

  /** node is operand number `at` of its father, whose operands are different objects; the siblings
      after a cd that is going to be removed are executables. */
  ghost predicate Family(s: Store, father: Node, node: Node, at: nat) {
    && father.Operands? && father.id in s.operands
    && at < |s.operands[father.id]| && s.operands[father.id][at] == node
    && (forall i, j :: 0 <= i < j < |s.operands[father.id]| ==>
          s.operands[father.id][i].id != s.operands[father.id][j].id)
    && (father.kind != Pipe && IsCd(node) ==>
          forall i :: at < i < |s.operands[father.id]| ==> s.operands[father.id][i].id in s.cd)
  }

  /** The store after an executable has been looked at. */
  ghost function AfterCommand(s: Store, father: Option<Node>, node: Node, at: nat): Store
    requires node.Executable? && node.id in s.cd
    requires father.Some? ==> Family(s, father.value, node, at)
  {
    if !IsCd(node) then s
    else if father.None? || father.value.kind == Pipe then
      s.(cd := s.cd[node.id := s.cd[node.id] + [node.argv[1]]])
    else
      var nodes := s.operands[father.value.id];
      Store(s.operands[father.value.id := nodes[..at] + nodes[at + 1..]], AddAll(s.cd, nodes[at + 1..], node.argv[1]))
  }

  lemma NextById(nodes: seq<Node>, j: nat, next: Option<Node>)
    requires forall i, k :: 0 <= i < k < |nodes| ==> nodes[i].id != nodes[k].id
    requires j < |nodes|
    requires next.Some? ==> exists i :: 0 <= i < |nodes| - 1 && FirstAt(nodes, i, nodes[j].id)
                                        && next == Some(nodes[i + 1])
    requires next.None? ==> forall i :: 0 <= i < |nodes| - 1 ==> nodes[i].id != nodes[j].id
    ensures next == if j + 1 < |nodes| then Some(nodes[j + 1]) else None
  {
    if next.Some? {
      var i :| 0 <= i < |nodes| - 1 && FirstAt(nodes, i, nodes[j].id) && next == Some(nodes[i + 1]);
      assert i == j;
    }
  }

  // ---- the loop over the operands

  /** The operand list when the first k operands have been looked at. */
  ghost function Pending(n: Node, k: nat): seq<Node>
    requires n.Operands? && k <= |n.nodes|
  {
    if n.kind == Pipe then n.nodes else Survivors(n.nodes[..k]) + n.nodes[k..]
  }

  /** Where operand k is found in that list. */
  ghost function Position(n: Node, k: nat): nat
    requires n.Operands? && k <= |n.nodes|
  {
    if n.kind == Pipe then k else |Survivors(n.nodes[..k])|
  }

  /** The directories operand j has got when the first k operands have been looked at. */
  ghost function Got(n: Node, k: nat, j: nat): seq<string>
    requires n.Operands? && k <= |n.nodes| && j < |n.nodes|
  {
    if j < k then Inherited(n, j) else if n.kind == Pipe then [] else Directories(n.nodes[..k])
  }

  ghost predicate CdsGot(n: Node, k: nat, s: Store, t: Store)
    requires n.Operands? && k <= |n.nodes|
  {
    forall j :: 0 <= j < |n.nodes| && n.nodes[j].Executable? ==>
      && n.nodes[j].id in s.cd && n.nodes[j].id in t.cd
      && t.cd[n.nodes[j].id] == s.cd[n.nodes[j].id] + Got(n, k, j)
  }

  /** The first k operands have been looked at. */
  ghost predicate Part(n: Node, k: nat, s: Store, t: Store)
    requires n.Operands? && k <= |n.nodes|
  {
    && SameElsewhere(Ids(n), s, t)
    && n.id in t.operands && t.operands[n.id] == Pending(n, k)
    && (forall j :: 0 <= j < k ==> Applied(n.nodes[j], s, t))
    && (forall j :: k <= j < |n.nodes| && n.nodes[j].Operands? ==> AgreeOn(Ids(n.nodes[j]), s, t))
    && CdsGot(n, k, s, t)
  }

  lemma PartStart(n: Node, s: Store)
    requires Distinct(n) && n.Operands? && Holds(s, n)
    ensures Part(n, 0, s, s) && Position(n, 0) == 0
  {
    assert n.nodes[..0] == [] && n.nodes[0..] == n.nodes;
    forall j | 0 <= j < |n.nodes| && n.nodes[j].Executable? ensures n.nodes[j].id in s.cd {
      assert Holds(s, n.nodes[j]);
    }
  }

  lemma PartEnd(n: Node, s: Store, t: Store)
    requires n.Operands? && Part(n, |n.nodes|, s, t)
    ensures Applied(n, s, t) && SameElsewhere(Ids(n), s, t)
    ensures Position(n, |n.nodes|) == |Pending(n, |n.nodes|)|
  {
    assert n.nodes[..|n.nodes|] == n.nodes && n.nodes[|n.nodes|..] == [];
  }

  lemma PendingAt(n: Node, k: nat)
    requires n.Operands? && k < |n.nodes|
    ensures Position(n, k) < |Pending(n, k)| && Pending(n, k)[Position(n, k)] == n.nodes[k]
    ensures n.kind != Pipe ==> Pending(n, k)[Position(n, k) + 1..] == n.nodes[k + 1..]
    ensures n.kind != Pipe ==> Pending(n, k)[..Position(n, k)] == Survivors(n.nodes[..k])
    ensures !(n.kind != Pipe && IsCd(n.nodes[k])) ==>
              Pending(n, k + 1) == Pending(n, k) && Position(n, k + 1) == Position(n, k) + 1
    ensures n.kind != Pipe && IsCd(n.nodes[k]) ==>
      Pending(n, k + 1) == Pending(n, k)[..Position(n, k)] + Pending(n, k)[Position(n, k) + 1..]
      && Position(n, k + 1) == Position(n, k)
  {
    SurvivorsSnoc(n.nodes, k);
    assert n.nodes[k..] == [n.nodes[k]] + n.nodes[k + 1..];
  }

  /** The operands in the list are still different objects. */
  lemma PendingDistinct(n: Node, k: nat)
    requires Distinct(n) && n.Operands? && k <= |n.nodes|
    ensures forall i, j :: 0 <= i < j < |Pending(n, k)| ==> Pending(n, k)[i].id != Pending(n, k)[j].id
  {
    OperandsApart(n);
    assert forall i :: 0 <= i < |n.nodes| ==> n.nodes[i].id in Ids(n.nodes[i]);
    if n.kind != Pipe {
      assert n.nodes[..k] + n.nodes[k..] == n.nodes;
      SurvivorsDistinct(n.nodes[..k], n.nodes[k..]);
    }
  }

  lemma {:induction false} SurvivorsDistinct(nodes: seq<Node>, rest: seq<Node>)
    requires forall i, j :: 0 <= i < j < |nodes + rest| ==> (nodes + rest)[i].id != (nodes + rest)[j].id
    ensures forall i, j :: 0 <= i < j < |Survivors(nodes) + rest| ==>
              (Survivors(nodes) + rest)[i].id != (Survivors(nodes) + rest)[j].id
    ensures forall x :: x in Survivors(nodes) + rest ==> x in nodes + rest
  {
    if nodes != [] {
      var all, tail := nodes + rest, nodes[1..] + rest;
      assert all[1..] == tail;
      assert forall i :: 0 <= i < |tail| ==> tail[i] == all[i + 1];
      SurvivorsDistinct(nodes[1..], rest);
      var kept := Survivors(nodes[1..]) + rest;
      if !IsCd(nodes[0]) {
        assert Survivors(nodes) + rest == [all[0]] + kept;
        forall i | 0 <= i < |kept| ensures kept[i].id != all[0].id {
          assert kept[i] in tail;
        }
      } else {
        assert Survivors(nodes) + rest == kept;
      }
    }
  }

  lemma FamilyAt(n: Node, k: nat, s: Store, t: Store)
    requires WellFormed(n) && CdSafe(n) && n.Operands? && k < |n.nodes| && Part(n, k, s, t) && Holds(s, n)
    ensures Position(n, k) < |t.operands[n.id]| && t.operands[n.id][Position(n, k)] == n.nodes[k]
    ensures Family(t, n, n.nodes[k], Position(n, k))
    ensures Holds(t, n.nodes[k])
  {
    PendingAt(n, k);
    PendingDistinct(n, k);
    var nodes, at := t.operands[n.id], Position(n, k);
    if n.kind != Pipe && IsCd(n.nodes[k]) {
      forall i | at < i < |nodes| ensures nodes[i].id in t.cd {
        assert nodes[i] == nodes[at + 1..][i - at - 1] == n.nodes[k + 1..][i - at - 1] == n.nodes[k + 1 + (i - at - 1)];
      }
    }
    assert Holds(s, n.nodes[k]);
    if n.nodes[k].Operands? {
      HoldsElsewhere(n.nodes[k], s, t);
    }
  }

  lemma AgreeApart(ids: set<nat>, mine: set<nat>, s: Store, t: Store)
    requires SameElsewhere(ids, s, t) && ids !! mine
    ensures AgreeOn(mine, s, t)
  {
  }

  /** The first k operands keep their form when nothing in them changes. */
  lemma AppliedKept(n: Node, k: nat, s: Store, t: Store, u: Store)
    requires n.Operands? && k <= |n.nodes|
    requires forall j :: 0 <= j < k ==> Applied(n.nodes[j], s, t) && AgreeOn(Ids(n.nodes[j]), t, u)
    ensures forall j :: 0 <= j < k ==> Applied(n.nodes[j], s, u)
  {
    forall j | 0 <= j < k ensures Applied(n.nodes[j], s, u) {
      SameStore(s, Ids(n.nodes[j]));
      AppliedElsewhere(n.nodes[j], s, t, s, u);
    }
  }

  lemma StillAgree(ids: set<nat>, s: Store, t: Store, u: Store)
    requires AgreeOn(ids, s, t) && AgreeOn(ids, t, u)
    ensures AgreeOn(ids, s, u)
  {
  }

  lemma StoresAgreeTrans(ids: set<nat>, mine: set<nat>, s: Store, t: Store, u: Store)
    requires SameElsewhere(ids, s, t) && SameElsewhere(mine, t, u) && mine <= ids
    ensures SameElsewhere(ids, s, u)
  {
  }

  /** The parts of Part that do not concern the directories. */
  lemma PartKept(n: Node, k: nat, s: Store, t: Store, u: Store)
    requires WellFormed(n) && n.Operands? && k < |n.nodes| && Part(n, k, s, t)
    requires forall j :: 0 <= j < |n.nodes| && j != k && !(k < j && n.nodes[j].Executable?) ==>
               AgreeOn(Ids(n.nodes[j]), t, u)
    requires SameElsewhere(Ids(n), t, u) && Applied(n.nodes[k], s, u)
    requires n.id in u.operands && u.operands[n.id] == Pending(n, k + 1) && CdsGot(n, k + 1, s, u)
    ensures Part(n, k + 1, s, u)
  {
    hide CdsGot, Applied, Ids, Distinct, NonEmpty, Pending;
    hide SameElsewhere, AgreeOn;
    AppliedKept(n, k, s, t, u);
    StoresAgreeTrans(Ids(n), Ids(n), s, t, u);
    forall j | k + 1 <= j < |n.nodes| && n.nodes[j].Operands? ensures AgreeOn(Ids(n.nodes[j]), s, u) {
      StillAgree(Ids(n.nodes[j]), s, t, u);
    }
  }

  /** Operand k was an operator: it has been rewritten in itself. */
  lemma PartOperator(n: Node, k: nat, s: Store, t: Store, u: Store)
    requires WellFormed(n) && n.Operands? && k < |n.nodes| && Part(n, k, s, t)
    requires n.nodes[k].Operands? && SameElsewhere(Ids(n.nodes[k]), t, u) && Applied(n.nodes[k], t, u)
    ensures Part(n, k + 1, s, u)
  {
    hide Applied, Ids, Distinct, NonEmpty, Pending, Position, CdsGot, AgreeOn;
    OperandsApart(n);
    PendingAt(n, k);
    forall j | 0 <= j < |n.nodes| && j != k ensures AgreeOn(Ids(n.nodes[j]), t, u) {
      AgreeApart(Ids(n.nodes[k]), Ids(n.nodes[j]), t, u);
    }
    AgreeUp(Ids(n.nodes[k]), Ids(n), t, u, n.id);
    SameStore(u, Ids(n.nodes[k]));
    AgreeSym(Ids(n.nodes[k]), s, t);
    AppliedElsewhere(n.nodes[k], t, u, s, u);
    CdsSame(n, k, t, u);
    CdsGotNext(n, k, s, t, u);
    PartKept(n, k, s, t, u);
  }

  lemma AgreeUp(mine: set<nat>, ids: set<nat>, t: Store, u: Store, x: nat)
    requires SameElsewhere(mine, t, u) && mine <= ids && x !in mine && x in t.operands
    ensures SameElsewhere(ids, t, u) && x in u.operands && u.operands[x] == t.operands[x]
  {
  }

  lemma CdsSame(n: Node, k: nat, t: Store, u: Store)
    requires n.Operands? && k < |n.nodes| && n.nodes[k].Operands?
    requires forall j :: 0 <= j < |n.nodes| && j != k ==> AgreeOn(Ids(n.nodes[j]), t, u)
    ensures forall j :: 0 <= j < |n.nodes| && n.nodes[j].Executable? && n.nodes[j].id in t.cd
              ==> n.nodes[j].id in u.cd && u.cd[n.nodes[j].id] == t.cd[n.nodes[j].id]
  {
    assert forall j :: 0 <= j < |n.nodes| ==> n.nodes[j].id in Ids(n.nodes[j]);
  }

  lemma SameStore(s: Store, ids: set<nat>)
    ensures AgreeOn(ids, s, s)
  {
  }

  lemma AgreeSym(ids: set<nat>, s: Store, t: Store)
    requires AgreeOn(ids, s, t)
    ensures AgreeOn(ids, t, s)
  {
  }

  /** A step that gives no operand a directory. */
  lemma CdsGotNext(n: Node, k: nat, s: Store, t: Store, u: Store)
    requires n.Operands? && k < |n.nodes| && CdsGot(n, k, s, t) && !IsCd(n.nodes[k])
    requires forall j :: 0 <= j < |n.nodes| && n.nodes[j].Executable? && n.nodes[j].id in t.cd
               ==> n.nodes[j].id in u.cd && u.cd[n.nodes[j].id] == t.cd[n.nodes[j].id]
    ensures CdsGot(n, k + 1, s, u)
  {
    SurvivorsSnoc(n.nodes, k);
  }

  lemma OwnIds(n: Node)
    requires Distinct(n) && n.Operands?
    ensures n.id in Ids(n)
    ensures forall j :: 0 <= j < |n.nodes| ==>
              n.nodes[j].id in Ids(n.nodes[j]) && n.nodes[j].id in Ids(n) && n.nodes[j].id != n.id
    ensures forall i, j :: 0 <= i < |n.nodes| && 0 <= j < |n.nodes| && i != j ==> n.nodes[i].id !in Ids(n.nodes[j])
  {
    OperandsApart(n);
    assert forall j :: 0 <= j < |n.nodes| ==> n.nodes[j].id in Ids(n.nodes[j]);
  }

  /** Operand k was an executable that stays; in a Pipe a cd gets its own directory. */
  lemma PartExecutable(n: Node, k: nat, s: Store, t: Store, u: Store)
    requires WellFormed(n) && n.Operands? && k < |n.nodes| && Part(n, k, s, t)
    requires n.nodes[k].Executable? && (n.kind == Pipe || !IsCd(n.nodes[k])) && n.nodes[k].id in t.cd
    requires IsCd(n.nodes[k]) ==> u == t.(cd := t.cd[n.nodes[k].id := t.cd[n.nodes[k].id] + [n.nodes[k].argv[1]]])
    requires !IsCd(n.nodes[k]) ==> u == t
    ensures Part(n, k + 1, s, u)
  {
    hide Ids, Distinct, NonEmpty, Pending, Position, CdsGot, Directories, Survivors, IsCd, HasId;
    OwnIds(n);
    PendingAt(n, k);
    CdsAfterExecutable(n, k, s, t, u);
    PartKept(n, k, s, t, u);
  }

  lemma CdsAfterExecutable(n: Node, k: nat, s: Store, t: Store, u: Store)
    requires WellFormed(n) && n.Operands? && k < |n.nodes| && Part(n, k, s, t)
    requires n.nodes[k].Executable? && (n.kind == Pipe || !IsCd(n.nodes[k])) && n.nodes[k].id in t.cd
    requires IsCd(n.nodes[k]) ==> u == t.(cd := t.cd[n.nodes[k].id := t.cd[n.nodes[k].id] + [n.nodes[k].argv[1]]])
    requires !IsCd(n.nodes[k]) ==> u == t
    ensures CdsGot(n, k + 1, s, u)
  {
    hide Ids, Distinct, NonEmpty, Pending, Position;
    OwnIds(n);
    SurvivorsSnoc(n.nodes, k);
  }

  /** Which ids the operands after operand k have. */
  lemma LaterIds(n: Node, k: nat)
    requires Distinct(n) && n.Operands? && k < |n.nodes|
    ensures forall j :: k < j < |n.nodes| ==> HasId(n.nodes[k + 1..], n.nodes[j].id)
    ensures forall j, x :: 0 <= j <= k && x in Ids(n.nodes[j]) ==> !HasId(n.nodes[k + 1..], x)
    ensures forall x :: HasId(n.nodes[k + 1..], x) ==> x in Ids(n)
  {
    OwnIds(n);
    OperandsApart(n);
    var later := n.nodes[k + 1..];
    forall j | k < j < |n.nodes| ensures HasId(later, n.nodes[j].id) {
      assert later[j - k - 1] == n.nodes[j];
    }
  }

  /** Operand k was a cd: it is gone and the operands after it have its directory. */
  lemma PartCd(n: Node, k: nat, s: Store, t: Store, u: Store)
    requires WellFormed(n) && CdSafe(n) && n.Operands? && k < |n.nodes| && Part(n, k, s, t)
    requires n.kind != Pipe && IsCd(n.nodes[k]) && Family(t, n, n.nodes[k], Position(n, k)) && n.nodes[k].id in t.cd
    requires u == AfterCommand(t, Some(n), n.nodes[k], Position(n, k))
    ensures Part(n, k + 1, s, u)
  {
    hide Ids, Distinct, NonEmpty, Pending, Position, HasId, Part, CdsGot, Directories, Survivors;
    OwnIds(n);
    PendingAt(n, k);
    PartDefined(n, k, s, t);
    LaterIds(n, k);
    OperandsApart(n);
    CdsAfterCd(n, k, s, t, u);
    forall j | 0 <= j < |n.nodes| && j != k && !(k < j && n.nodes[j].Executable?)
      ensures AgreeOn(Ids(n.nodes[j]), t, u)
    {
      assert j < k;
    }
    PartKept(n, k, s, t, u);
  }

  lemma CdsAfterCd(n: Node, k: nat, s: Store, t: Store, u: Store)
    requires WellFormed(n) && n.Operands? && k < |n.nodes| && Part(n, k, s, t) && n.kind != Pipe && IsCd(n.nodes[k])
    requires u.cd == AddAll(t.cd, n.nodes[k + 1..], n.nodes[k].argv[1])
    ensures CdsGot(n, k + 1, s, u)
  {
    hide Ids, Distinct, NonEmpty, Pending, HasId;
    OwnIds(n);
    LaterIds(n, k);
    SurvivorsSnoc(n.nodes, k);
  }

  lemma PartDefined(n: Node, k: nat, s: Store, t: Store)
    requires n.Operands? && k <= |n.nodes| && Part(n, k, s, t)
    ensures n.id in t.operands && t.operands[n.id] == Pending(n, k)
  {
  }

  lemma PositionInside(n: Node, k: nat)
    requires n.Operands? && k <= |n.nodes|
    ensures Position(n, k) < |Pending(n, k)| <==> k < |n.nodes|
  {
  }

  lemma OperandSafe(n: Node, k: nat)
    requires WellFormed(n) && CdSafe(n) && n.Operands? && k < |n.nodes|
    ensures WellFormed(n.nodes[k]) && CdSafe(n.nodes[k])
  {
  }

  /** One turn of the loop. */
  lemma OperandDone(n: Node, k: nat, s: Store, t: Store, u: Store)
    requires WellFormed(n) && CdSafe(n) && n.Operands? && k < |n.nodes| && Part(n, k, s, t) && Holds(t, n.nodes[k])
    requires Family(t, n, n.nodes[k], Position(n, k))
    requires n.nodes[k].Operands? ==> SameElsewhere(Ids(n.nodes[k]), t, u) && Applied(n.nodes[k], t, u)
    requires n.nodes[k].Executable? ==> u == AfterCommand(t, Some(n), n.nodes[k], Position(n, k))
    ensures Part(n, k + 1, s, u) && n.id in u.operands && u.operands[n.id] == Pending(n, k + 1)
  {
    hide Part, SameElsewhere, Applied, Ids, Distinct, NonEmpty, Pending, Position, CdSafe;
    if n.nodes[k].Operands? {
      PartOperator(n, k, s, t, u);
    } else if n.kind != Pipe && IsCd(n.nodes[k]) {
      PartCd(n, k, s, t, u);
    } else {
      PartExecutable(n, k, s, t, u);
    }
    PartDefined(n, k + 1, s, u);
  }

  lemma AddAllKeys(cd: map<nat, seq<string>>, nodes: seq<Node>, dir: string)
    ensures AddAll(cd, nodes, dir).Keys == cd.Keys
  {
  }

  lemma AddNothing(cd: map<nat, seq<string>>, dir: string)
    ensures AddAll(cd, [], dir) == cd
  {
  }

  lemma NotAmongEarlier(nodes: seq<Node>, at: nat, j: nat)
    requires at <= j < |nodes| - 1
    requires forall i, k :: 0 <= i < k < |nodes| ==> nodes[i].id != nodes[k].id
    ensures !HasId(nodes[at + 1..j + 1], nodes[j + 1].id)
  {
  }

  /** The tree with its cd commands removed, as the later phases see it. */
  function Rewritten(n: Node): Node
    decreases n, 1
  {
    match n
    case Executable(_, _) => n
    case Operands(id, kind, nodes) => Operands(id, kind, RewrittenAll(nodes, kind))
  }

  function RewrittenAll(nodes: seq<Node>, kind: Kind): seq<Node>
    decreases nodes, 0
  {
    if nodes == [] then []
    else if kind != Pipe && IsCd(nodes[0]) then RewrittenAll(nodes[1..], kind)
    else [Rewritten(nodes[0])] + RewrittenAll(nodes[1..], kind)
  }

  /** The operands an operator keeps. */
  ghost function Kept(n: Node): seq<Node>
    requires n.Operands?
  {
    if n.kind == Pipe then n.nodes else Survivors(n.nodes)
  }

  lemma {:induction false} RewrittenAllIsKept(nodes: seq<Node>, kind: Kind)
    ensures var kept := if kind == Pipe then nodes else Survivors(nodes);
            |RewrittenAll(nodes, kind)| == |kept| && forall i :: 0 <= i < |kept| ==>
              RewrittenAll(nodes, kind)[i] == Rewritten(kept[i])
  {
    hide Rewritten;
    if nodes != [] {
      RewrittenAllIsKept(nodes[1..], kind);
    }
  }

  lemma {:induction false} SurvivorsAmong(nodes: seq<Node>, i: nat) returns (j: nat)
    requires i < |Survivors(nodes)|
    ensures i <= j < |nodes| && Survivors(nodes)[i] == nodes[j]
    ensures !IsCd(nodes[j]) && Survivors(nodes[..j]) == Survivors(nodes)[..i]
  {
    NoSurvivors();
    assert nodes != [];
    hide IsCd, Survivors, Directories;
    FirstSurvivor(nodes);
    if IsCd(nodes[0]) {
      j := SurvivorsAmong(nodes[1..], i);
      FirstSurvivor(nodes[..j + 1]);
      assert nodes[..j + 1][1..] == nodes[1..][..j];
      j := j + 1;
    } else if i == 0 {
      j := 0;
      assert nodes[..0] == [];
    } else {
      j := SurvivorsAmong(nodes[1..], i - 1);
      FirstSurvivor(nodes[..j + 1]);
      assert nodes[..j + 1][1..] == nodes[1..][..j];
      j := j + 1;
    }
  }

  lemma KeptAmong(n: Node, i: nat) returns (j: nat)
    requires n.Operands? && i < |Kept(n)|
    ensures i <= j < |n.nodes| && Kept(n)[i] == n.nodes[j]
    ensures n.kind != Pipe ==> !IsCd(n.nodes[j]) && Survivors(n.nodes[..j]) == Kept(n)[..i]
    ensures n.kind == Pipe ==> j == i
  {
    if n.kind == Pipe {
      j := i;
    } else {
      j := SurvivorsAmong(n.nodes, i);
    }
  }

  /** The operator lists below n in store t spell out the tree m, at every depth. */
  ghost predicate Reads(t: Store, n: Node, m: Node)
    decreases m
  {
    match m
    case Executable(_, _) => n == m
    case Operands(id, kind, nodes) =>
      && n.Operands? && n.id == id && n.kind == kind
      && id in t.operands && |t.operands[id]| == |nodes|
      && forall i :: 0 <= i < |nodes| ==> Reads(t, t.operands[id][i], nodes[i])
  }

  /** A store spells out only one tree. */
  lemma {:induction false} ReadsOne(t: Store, n: Node, m: Node, m': Node)
    requires Reads(t, n, m) && Reads(t, n, m')
    ensures m == m'
    decreases m
  {
    if m.Operands? {
      forall i | 0 <= i < |m.nodes| ensures m.nodes[i] == m'.nodes[i] {
        ReadsOne(t, t.operands[m.id][i], m.nodes[i], m'.nodes[i]);
      }
      assert m.nodes == m'.nodes;
    }
  }

  /** The store the elimination leaves spells out the rewritten tree. */
  lemma {:induction false} AppliedReads(n: Node, s: Store, t: Store)
    requires Applied(n, s, t)
    ensures Reads(t, n, Rewritten(n))
  {
    if n.Operands? {
      RewrittenAllIsKept(n.nodes, n.kind);
      var m := Rewritten(n);
      assert t.operands[n.id] == Kept(n);
      forall i | 0 <= i < |m.nodes| ensures Reads(t, t.operands[n.id][i], m.nodes[i]) {
        var j := KeptAmong(n, i);
        AppliedReads(n.nodes[j], s, t);
      }
    }
  }

  /** The operands in the store are operands of the original node. */
  lemma KeptBelow(n: Node, s: Store, t: Store, i: nat) returns (j: nat)
    requires Applied(n, s, t) && n.Operands? && i < |t.operands[n.id]|
    ensures j < |n.nodes| && t.operands[n.id][i] == n.nodes[j] && Applied(n.nodes[j], s, t)
  {
    j := KeptAmong(n, i);
  }

  /** The operand lists and the empty cd lists of a new tree. */
  function NewStore(n: Node): Store
    decreases n, 1
  {
    match n
    case Executable(id, _) => Store(map[], map[id := []])
    case Operands(id, _, nodes) => Store(NewStoreAll(nodes).operands[id := nodes], NewStoreAll(nodes).cd)
  }

  function NewStoreAll(nodes: seq<Node>): Store
    decreases nodes, 0
  {
    if nodes == [] then Store(map[], map[])
    else
      var first, rest := NewStore(nodes[0]), NewStoreAll(nodes[1..]);
      Store(rest.operands + first.operands, rest.cd + first.cd)
  }

  lemma {:induction false} NewStoreHolds(n: Node)
    requires Distinct(n)
    ensures Holds(NewStore(n), n)
    ensures NewStore(n).operands.Keys <= Ids(n) && NewStore(n).cd.Keys <= Ids(n)
    ensures forall x :: x in NewStore(n).cd ==> NewStore(n).cd[x] == []
    decreases n, 1
  {
    if n.Operands? {
      NewStoreAllHolds(n.nodes);
      OperandsApart(n);
      forall i | 0 <= i < |n.nodes| ensures Holds(NewStore(n), n.nodes[i]) {
        HoldsElsewhere(n.nodes[i], NewStoreAll(n.nodes), NewStore(n));
      }
    }
  }

  lemma {:induction false} NewStoreAllHolds(nodes: seq<Node>)
    requires forall i :: 0 <= i < |nodes| ==> Distinct(nodes[i])
    requires forall i, j :: 0 <= i < j < |nodes| ==> Ids(nodes[i]) !! Ids(nodes[j])
    ensures forall i :: 0 <= i < |nodes| ==> Holds(NewStoreAll(nodes), nodes[i])
    ensures forall x :: x in NewStoreAll(nodes).operands ==> exists i :: 0 <= i < |nodes| && x in Ids(nodes[i])
    ensures forall x :: x in NewStoreAll(nodes).cd ==> exists i :: 0 <= i < |nodes| && x in Ids(nodes[i])
    ensures forall x :: x in NewStoreAll(nodes).cd ==> NewStoreAll(nodes).cd[x] == []
    decreases nodes, 0
  {
    hide Holds, Ids, Distinct;
    if nodes != [] {
      var first, rest, all := NewStore(nodes[0]), NewStoreAll(nodes[1..]), NewStoreAll(nodes);
      NewStoreHolds(nodes[0]);
      NewStoreAllHolds(nodes[1..]);
      HoldsElsewhere(nodes[0], first, all);
      forall i | 0 < i < |nodes| ensures Holds(all, nodes[i]) {
        assert nodes[i] == nodes[1..][i - 1];
        HoldsElsewhere(nodes[i], rest, all);
      }
    }
  }

  // ---- what the elimination means, word by word

  /** `list` are the operands at the positions `kept`: all but those that say "cd" and one directory. */
  ghost predicate AllButCds(kept: seq<nat>, nodes: seq<Node>, list: seq<Node>) {
    && |kept| == |list|
    && (forall i, j :: 0 <= i < j < |kept| ==> kept[i] < kept[j])
    && (forall i :: 0 <= i < |kept| ==> kept[i] < |nodes| && list[i] == nodes[kept[i]])
    && forall k :: 0 <= k < |nodes| ==>
         (k in kept <==> !(nodes[k].Executable? && |nodes[k].argv| == 2 && nodes[k].argv[0] == "cd"))
  }

  /** `got` are the directories named at the positions `cds`: all operands before the given one that say
      "cd" and one directory. */
  ghost predicate DirectoriesBefore(cds: seq<nat>, nodes: seq<Node>, before: nat, got: seq<string>) {
    && |cds| == |got|
    && (forall i, j :: 0 <= i < j < |cds| ==> cds[i] < cds[j])
    && (forall i :: 0 <= i < |cds| ==>
          cds[i] < |nodes| && nodes[cds[i]].Executable? && |nodes[cds[i]].argv| == 2 && got[i] == nodes[cds[i]].argv[1])
    && forall k :: 0 <= k < |nodes| ==>
         (k in cds <==> k < before && nodes[k].Executable? && |nodes[k].argv| == 2 && nodes[k].argv[0] == "cd")
  }

  lemma SurvivorPositions(nodes: seq<Node>) returns (kept: seq<nat>)
    ensures AllButCds(kept, nodes, Survivors(nodes))
  {
    hide Survivors;
    NoSurvivors();
    kept := [];
    for k := 0 to |nodes|
      invariant AllButCds(kept, nodes[..k], Survivors(nodes[..k]))
    {
      SurvivorsSnoc(nodes, k);
      NextKept(kept, nodes, k, Survivors(nodes[..k]));
      if !IsCd(nodes[k]) {
        kept := kept + [k];
      }
    }
    assert nodes[..|nodes|] == nodes;
  }

  lemma NextKept(kept: seq<nat>, nodes: seq<Node>, k: nat, list: seq<Node>)
    requires k < |nodes| && AllButCds(kept, nodes[..k], list)
    ensures if IsCd(nodes[k]) then AllButCds(kept, nodes[..k + 1], list)
            else AllButCds(kept + [k], nodes[..k + 1], list + [nodes[k]])
  {
    assert forall j :: 0 <= j < k ==> nodes[..k + 1][j] == nodes[..k][j];
    assert forall j :: j in kept ==> j < k;
  }

  lemma CdPositions(nodes: seq<Node>, before: nat) returns (cds: seq<nat>)
    requires before <= |nodes|
    ensures DirectoriesBefore(cds, nodes, before, Directories(nodes[..before]))
  {
    hide Survivors, Directories;
    NoSurvivors();
    cds := [];
    assert nodes[..0] == [];
    for k := 0 to before
      invariant DirectoriesBefore(cds, nodes, k, Directories(nodes[..k]))
    {
      SurvivorsSnoc(nodes, k);
      NextCd(cds, nodes, k, Directories(nodes[..k]));
      if IsCd(nodes[k]) {
        cds := cds + [k];
      }
    }
  }

  lemma NextCd(cds: seq<nat>, nodes: seq<Node>, k: nat, got: seq<string>)
    requires k < |nodes| && DirectoriesBefore(cds, nodes, k, got)
    ensures if IsCd(nodes[k]) then DirectoriesBefore(cds + [k], nodes, k + 1, got + [nodes[k].argv[1]])
            else DirectoriesBefore(cds, nodes, k + 1, got)
  {
    assert forall j :: j in cds ==> j < k;
  }

  /** An operator whose list and whose operands' directories are as they must be; `before` are the
      directories that each executable had at first. */
  ghost predicate Edited(n: Node, before: map<nat, seq<string>>, t: Store)
    requires n.Operands?
  {
    && n.id in t.operands
    && (n.kind == Pipe ==> t.operands[n.id] == n.nodes)
    && (n.kind != Pipe ==> exists kept: seq<nat> :: AllButCds(kept, n.nodes, t.operands[n.id]))
    && forall k :: 0 <= k < |n.nodes| && n.nodes[k].Executable? ==> Prepared(n, k, before, t)
  }

  ghost predicate Prepared(n: Node, k: nat, before: map<nat, seq<string>>, t: Store)
    requires n.Operands? && k < |n.nodes| && n.nodes[k].Executable?
  {
    var x, argv := n.nodes[k].id, n.nodes[k].argv;
    && x in before && x in t.cd
    && (n.kind == Pipe && |argv| == 2 && argv[0] == "cd" ==> t.cd[x] == before[x] + [argv[1]])
    && (n.kind == Pipe && !(|argv| == 2 && argv[0] == "cd") ==> t.cd[x] == before[x])
    && (n.kind != Pipe ==> exists cds: seq<nat>, got ::
          DirectoriesBefore(cds, n.nodes, k, got) && t.cd[x] == before[x] + got)
  }

  /** Every operator of the tree has been edited. */
  ghost predicate Eliminated(n: Node, before: map<nat, seq<string>>, t: Store) {
    forall p: seq<nat> :: ValidPath(n, p) && At(n, p).Operands? ==> Edited(At(n, p), before, t)
  }

  lemma AppliedHere(n: Node, s: Store, t: Store)
    requires n.Operands? && Applied(n, s, t)
    ensures Edited(n, s.cd, t)
  {
    hide Survivors, Directories, AllButCds, DirectoriesBefore;
    if n.kind != Pipe {
      var kept := SurvivorPositions(n.nodes);
    }
    forall k | 0 <= k < |n.nodes| && n.nodes[k].Executable? ensures Prepared(n, k, s.cd, t) {
      if n.kind != Pipe {
        var cds := CdPositions(n.nodes, k);
      }
    }
  }

  lemma {:induction false} AppliedAt(n: Node, p: seq<nat>, s: Store, t: Store)
    requires Applied(n, s, t) && ValidPath(n, p)
    ensures Applied(At(n, p), s, t)
  {
    if p != [] {
      AppliedAt(n.nodes[p[0]], p[1..], s, t);
    }
  }

  /** In every And, Or and Semicolon, at every depth, the list keeps exactly the operands that do not say
      "cd" and one directory, in order, and every executable gets the directories of exactly those that
      do before it, in order; in every Pipe all operands stay, and those that do get their own. */
  lemma AppliedMeans(n: Node, s: Store, t: Store)
    requires Applied(n, s, t)
    ensures Eliminated(n, s.cd, t)
  {
    hide Applied, Edited;
    forall p: seq<nat> | ValidPath(n, p) && At(n, p).Operands? ensures Edited(At(n, p), s.cd, t) {
      AppliedAt(n, p, s, t);
      AppliedHere(At(n, p), s, t);
    }
  }

  lemma NoOperators(n: Node, before: map<nat, seq<string>>, t: Store)
    requires n.Executable?
    ensures Eliminated(n, before, t)
  {
  }

  /** Only what the executables of the tree had at first matters. */
  lemma EliminatedFrom(n: Node, before: map<nat, seq<string>>, before': map<nat, seq<string>>, t: Store)
    requires Eliminated(n, before, t)
    requires forall x :: x in Ids(n) && x in before ==> x in before' && before'[x] == before[x]
    ensures Eliminated(n, before', t)
  {
    hide DirectoriesBefore, AllButCds;
    forall p: seq<nat> | ValidPath(n, p) && At(n, p).Operands? ensures Edited(At(n, p), before', t) {
      var op := At(n, p);
      AtFacts(n, p);
      forall k | 0 <= k < |op.nodes| && op.nodes[k].Executable? ensures Prepared(op, k, before', t) {
        ExtendPath(n, p, k);
        AtFacts(n, p + [k]);
        assert Prepared(op, k, before, t);
      }
    }
  }

  /** operands->nodes and operands->count, and executable->cd, by address. */
  class CommandTree {
    var operands: map<nat, seq<Node>>
    var cd: map<nat, seq<string>>

    /** The fields of a tree as its nodes were created. */
    constructor (tree: Node)
      requires Distinct(tree)
      ensures Holds(S(), tree)
      ensures forall x :: x in cd ==> cd[x] == []
    {
      operands, cd := NewStore(tree).operands, NewStore(tree).cd;
      new;
      NewStoreHolds(tree);
    }

    ghost function S(): Store
      reads this
    {
      Store(operands, cd)
    }

    /** The operator as it is now. */
    function Now(father: Node): Node
      requires father.Operands? && father.id in operands
      reads this
    {
      Operands(father.id, father.kind, operands[father.id])
    }

    method AddCd(executable: Node, dir: string)
      requires executable.id in cd
      modifies `cd
      ensures cd == old(cd)[executable.id := old(cd)[executable.id] + [dir]]
    {
      cd := cd[executable.id := cd[executable.id] + [dir]];
    }

    /** remove_node_from_operands: shifts the operands after the removed one in place. */
    method RemoveNodeFromOperands(father: Node, toRemove: Node, ghost at: nat)
      requires father.id in operands && at < |operands[father.id]| && operands[father.id][at] == toRemove
      requires forall i :: 0 <= i < |operands[father.id]| && i != at ==> operands[father.id][i].id != toRemove.id
      modifies `operands
      ensures operands == old(operands)[father.id :=
                old(operands)[father.id][..at] + old(operands)[father.id][at + 1..]]
    {
      var nodes := operands[father.id];
      ghost var was := nodes;
      var removed := false;
      assert forall i :: 0 <= i < |was| ==> (was[i].id == toRemove.id <==> i == at);
      for i := 0 to |nodes|
        invariant |nodes| == |was| && removed == (i > at)
        invariant forall j :: at <= j < i - 1 ==> nodes[j] == was[j + 1]
        invariant forall j :: 0 <= j < |was| && !(at <= j < i - 1) ==> nodes[j] == was[j]
      {
        if nodes[i].id == toRemove.id {
          removed := true;
        } else if removed {
          nodes := nodes[i - 1 := nodes[i]];
        }
      }
      assert nodes[..|nodes| - 1] == was[..at] + was[at + 1..];
      operands := operands[father.id := nodes[..|nodes| - 1]];
    }

    /** Every sibling after the cd command gets its directory. */
    method AddToBrothers(father: Node, node: Node, dir: string, ghost at: nat)
      requires father.Operands? && father.id in operands
      requires at < |operands[father.id]| && operands[father.id][at] == node
      requires forall i, j :: 0 <= i < j < |operands[father.id]| ==>
                 operands[father.id][i].id != operands[father.id][j].id
      requires forall i :: at < i < |operands[father.id]| ==> operands[father.id][i].id in cd
      modifies `cd
      ensures cd == AddAll(old(cd), operands[father.id][at + 1..], dir)
    {
      hide AddAll, HasId;
      ghost var nodes := operands[father.id];
      var brother := Some(node);
      ghost var j := at;
      assert nodes[at + 1..at + 1] == [];
      AddNothing(cd, dir);
      while brother.Some?
        invariant at <= j <= |nodes|
        invariant brother == if j < |nodes| then Some(nodes[j]) else None
        invariant cd == AddAll(old(cd), nodes[at + 1..if j < |nodes| then j + 1 else j], dir)
        decreases |nodes| - j
      {
        var next := FindNextNodeInOperands(Now(father), brother.value);
        NextById(nodes, j, next);
        brother := next;
        if brother.Some? {
          assert nodes[at + 1..j + 2] == nodes[at + 1..j + 1] + [nodes[j + 1]];
          NotAmongEarlier(nodes, at, j);
          AddAllKeys(old(cd), nodes[at + 1..j + 1], dir);
          AddAllSnoc(old(cd), nodes[at + 1..j + 1], nodes[j + 1], dir);
          AddCd(brother.value, dir);
        }
        j := j + 1;
      }
      assert nodes[at + 1..|nodes|] == nodes[at + 1..];
    }

    /** apply_cd_builtin_r; `at` is the node's position among its father's operands. */
    method ApplyCdBuiltinR(father: Option<Node>, node: Node, ghost at: nat)
      requires WellFormed(node) && CdSafe(node) && Holds(S(), node)
      requires father.Some? ==> Family(S(), father.value, node, at)
      modifies this
      ensures node.Operands? ==> SameElsewhere(Ids(node), old(S()), S()) && Applied(node, old(S()), S())
      ensures node.Executable? ==> S() == AfterCommand(old(S()), father, node, at)
      ensures node.Operands? ==> Eliminated(node, old(cd), S())
      ensures node.Executable? && !(|node.argv| == 2 && node.argv[0] == "cd") ==> S() == old(S())
      ensures node.Executable? && |node.argv| == 2 && node.argv[0] == "cd" ==>
                node.id in old(cd) && if father.Some? && father.value.kind != Pipe
                then operands == old(operands)[father.value.id :=
                       old(operands)[father.value.id][..at] + old(operands)[father.value.id][at + 1..]]
                else cd == old(cd)[node.id := old(cd)[node.id] + [node.argv[1]]] && operands == old(operands)
      decreases node, 1
    {
      hide Eliminated, SameElsewhere;
      if node.Operands? {
        ApplyToOperands(node);
      } else if IsCd(node) {
        if father.Some? && father.value.kind != Pipe {
          AddToBrothers(father.value, node, node.argv[1], at);
          RemoveNodeFromOperands(father.value, node, at);
        } else {
          AddCd(node, node.argv[1]);
        }
      }
    }

    /** The loop over the operands. The operand at i may remove itself; i then stays. */
    method ApplyToOperands(node: Node)
      requires WellFormed(node) && CdSafe(node) && Holds(S(), node) && node.Operands?
      modifies this
      ensures SameElsewhere(Ids(node), old(S()), S()) && Applied(node, old(S()), S())
      ensures Eliminated(node, old(cd), S())
      decreases node, 0
    {
      hide Eliminated, Part, Holds, SameElsewhere, Applied, Ids, Distinct, NonEmpty, Pending, Position, Family;
      PartStart(node, S());
      var i := 0;
      ghost var k := 0;
      PartDefined(node, 0, S(), S());
      while i < |operands[node.id]|
        invariant 0 <= k <= |node.nodes| && i == Position(node, k)
        invariant node.id in operands && operands[node.id] == Pending(node, k)
        invariant Part(node, k, old(S()), S())
        decreases |node.nodes| - k
      {
        PositionInside(node, k);
        FamilyAt(node, k, old(S()), S());
        PendingAt(node, k);
        OperandSafe(node, k);
        ghost var t := S();
        var count := |operands[node.id]|;
        ApplyCdBuiltinR(Some(node), operands[node.id][i], i);
        OperandDone(node, k, old(S()), t, S());
        if |operands[node.id]| == count - 1 { // the node at i was removed
          i := i - 1;
        }
        i := i + 1;
        k := k + 1;
      }
      PositionInside(node, k);
      PartEnd(node, old(S()), S());
      AppliedMeans(node, old(S()), S());
    }

    /** apply_cd_builtin: the root has no father, so a lone cd command stays and gets its own
        directory. */
    method ApplyCdBuiltin(root: Node)
      requires WellFormed(root) && CdSafe(root) && Holds(S(), root)
      modifies this
      ensures root.Operands? ==> SameElsewhere(Ids(root), old(S()), S()) && Applied(root, old(S()), S())
      ensures Eliminated(root, old(cd), S())
      ensures root.Executable? ==> operands == old(operands)
      ensures root.Executable? && |root.argv| == 2 && root.argv[0] == "cd" ==>
                cd == old(cd)[root.id := old(cd)[root.id] + [root.argv[1]]]
      ensures root.Executable? && !(|root.argv| == 2 && root.argv[0] == "cd") ==> cd == old(cd)
    {
      hide Eliminated, SameElsewhere;
      ApplyCdBuiltinR(None, root, 0);
      if root.Executable? {
        NoOperators(root, old(cd), S());
      }
    }

    /** The tree as the later phases see it: each operator with the operands its list holds now. */
    method CurrentTree(node: Node, ghost s: Store) returns (m: Node)
      requires Applied(node, s, S())
      ensures Reads(S(), node, m)
      decreases node
    {
      if node.Executable? {
        return node;
      }
      var nodes: seq<Node> := [];
      for i := 0 to |operands[node.id]|
        invariant |nodes| == i
        invariant forall k :: 0 <= k < i ==> Reads(S(), operands[node.id][k], nodes[k])
      {
        ghost var j := KeptBelow(node, s, S(), i);
        var operand := CurrentTree(operands[node.id][i], s);
        nodes := nodes + [operand];
      }
      return Operands(node.id, node.kind, nodes);
    }
  }

  // ---- what is left

  /** No operator loses all its operands. */
  ghost predicate NoneEmptied(n: Node) {
    n.Operands? ==> Kept(n) != [] && forall i :: 0 <= i < |n.nodes| ==> NoneEmptied(n.nodes[i])
  }

  /** Pipes keep all their operands at any depth, and the rewritten tree is again one of distinct
      nodes with non-empty operators, ready to be wired. */
  lemma {:induction false} RewrittenReady(n: Node)
    requires WellFormed(n) && WidePipes(n) && NoneEmptied(n)
    ensures WellFormed(Rewritten(n)) && WidePipes(Rewritten(n))
    ensures Ids(Rewritten(n)) <= Ids(n) && Rewritten(n).id == n.id
  {
    if n.Operands? {
      var r := Rewritten(n);
      RewrittenAllIsKept(n.nodes, n.kind);
      forall i | 0 <= i < |r.nodes|
        ensures WellFormed(r.nodes[i]) && WidePipes(r.nodes[i]) && Ids(r.nodes[i]) <= Ids(Kept(n)[i])
        ensures n.id !in Ids(r.nodes[i])
        ensures Ids(Kept(n)[i]) <= Ids(n)
      {
        var j := KeptAmong(n, i);
        RewrittenReady(n.nodes[j]);
      }
      forall i, i' | 0 <= i < i' < |r.nodes| ensures Ids(r.nodes[i]) !! Ids(r.nodes[i']) {
        KeptApart(n, i, i');
      }
    }
  }

  lemma KeptApart(n: Node, i: nat, i': nat)
    requires Distinct(n) && n.Operands? && i < i' < |Kept(n)|
    ensures Ids(Kept(n)[i]) !! Ids(Kept(n)[i'])
  {
    OperandsApart(n);
    if n.kind != Pipe {
      var j' := SurvivorsAmong(n.nodes, i');
      assert Kept(n)[i] == Survivors(n.nodes[..j'])[i];
      var j := SurvivorsAmong(n.nodes[..j'], i);
    }
  }
}
