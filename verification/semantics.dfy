/** What a command tree means: a recursive evaluator in the manner of sections 2.9.2 (pipelines)
    and 2.9.3 (lists) of the POSIX Shell Command Language, and the state the asynchronous
    engine must be in once a given set of executables has exited. */
module Semantics {
  import opened Nodes

  /** The wait status each executable ends with, by address. */
  type Status = nat -> int

  /** WIFEXITED(code) && WEXITSTATUS(code) == 0 */
  predicate Ok(code: int) {
    code % 128 == 0 && (code / 256) % 256 == 0
  }

  // ---- the evaluator

  /** The exit code of a node: And stops at the first failure, Or at the first success,
      Semicolon and Pipe run all operands and take the last one's. */
  ghost function Eval(n: Node, st: Status): int
    requires NonEmpty(n)
    decreases n, if n.Operands? then |n.nodes| + 1 else 0
  {
    if n.Executable? then st(n.id) else EvalFrom(n, 0, st)
  }

  ghost function EvalFrom(n: Node, i: nat, st: Status): int
    requires NonEmpty(n) && n.Operands? && i < |n.nodes|
    decreases n, |n.nodes| - i
  {
    var code := Eval(n.nodes[i], st);
    var last := i + 1 == |n.nodes|;
    match n.kind
    case And => if !Ok(code) then code else if last then 0 else EvalFrom(n, i + 1, st)
    case Or => if Ok(code) then 0 else if last then code else EvalFrom(n, i + 1, st)
    case Semicolon => if last then code else EvalFrom(n, i + 1, st)
    case Pipe => if last then code else EvalFrom(n, i + 1, st)
  }

  /** Does an operand ending with `code` end its operator before the remaining operands? */
  predicate Stops(kind: Kind, code: int) {
    (kind == And && !Ok(code)) || (kind == Or && Ok(code))
  }

  /** The last operand that runs, searched from operand i on. */
  ghost function LastFrom(n: Node, i: nat, st: Status): (k: nat)
    requires NonEmpty(n) && n.Operands? && i < |n.nodes|
    ensures i <= k < |n.nodes|
    ensures forall j :: i <= j < k ==> !Stops(n.kind, Eval(n.nodes[j], st))
    ensures k + 1 == |n.nodes| || Stops(n.kind, Eval(n.nodes[k], st))
    decreases |n.nodes| - i
  {
    if i + 1 == |n.nodes| || Stops(n.kind, Eval(n.nodes[i], st)) then i else LastFrom(n, i + 1, st)
  }

  ghost function Last(n: Node, st: Status): nat
    requires NonEmpty(n) && n.Operands?
  {
    LastFrom(n, 0, st)
  }

  /** The nodes that run at all. */
  ghost function Reached(n: Node, st: Status): set<nat>
    requires NonEmpty(n)
  {
    if n.Executable? then {n.id}
    else {n.id} + set i, x | 0 <= i < |n.nodes| && i <= Last(n, st) && x in Reached(n.nodes[i], st) :: x
  }

  /** The code an operator gets from the operand that ended it. */
  function Verdict(kind: Kind, code: int): int {
    if (kind == And || kind == Or) && Ok(code) then 0 else code
  }

  lemma {:induction false} EvalFromLast(n: Node, i: nat, st: Status)
    requires NonEmpty(n) && n.Operands? && i < |n.nodes|
    ensures EvalFrom(n, i, st) == Verdict(n.kind, Eval(n.nodes[LastFrom(n, i, st)], st))
    decreases |n.nodes| - i
  {
    if i + 1 < |n.nodes| && !Stops(n.kind, Eval(n.nodes[i], st)) {
      EvalFromLast(n, i + 1, st);
    }
  }

  // ---- the state after the executables in `exited` have exited

  /** n has delivered its result: a Pipe with its last operand, any other operator with all the
      operands that run. */
  ghost predicate Done(n: Node, exited: set<nat>, st: Status)
    requires NonEmpty(n)
  {
    if n.Executable? then n.id in exited
    else if n.kind == Pipe then Done(n.nodes[|n.nodes| - 1], exited, st)
    else forall i :: 0 <= i < |n.nodes| && i <= Last(n, st) ==> Done(n.nodes[i], exited, st)
  }

  /** Operand i of a started operator has been started: at once in a Pipe, otherwise when the
      earlier operands are done and none of them stopped the operator. */
  ghost predicate Begun(n: Node, i: nat, exited: set<nat>, st: Status)
    requires NonEmpty(n) && n.Operands? && i < |n.nodes|
  {
    n.kind == Pipe || (i <= Last(n, st) && forall j :: 0 <= j < i ==> Done(n.nodes[j], exited, st))
  }

  ghost function CodeOf(n: Node, exited: set<nat>, st: Status): Option<int>
    requires NonEmpty(n)
  {
    if Done(n, exited, st) then Some(Eval(n, st)) else None
  }

  /** node->result of each node: absent while it is NULL, None while its exit code is not set. */
  type Results = map<nat, Option<int>>

  ghost predicate Untouched(n: Node, r: Results) {
    forall x :: x in Ids(n) ==> x !in r
  }

  /** The results of a started node and of its descendants once `exited` have exited. */
  ghost predicate State(n: Node, exited: set<nat>, st: Status, r: Results)
    requires NonEmpty(n)
  {
    && n.id in r && r[n.id] == CodeOf(n, exited, st)
    && (n.Operands? ==> forall i :: 0 <= i < |n.nodes| ==>
          if Begun(n, i, exited, st) then State(n.nodes[i], exited, st, r) else Untouched(n.nodes[i], r))
  }

  /** `exited` holds only executables that had been started. */
  ghost predicate Consistent(n: Node, exited: set<nat>, st: Status)
    requires NonEmpty(n)
  {
    n.Operands? ==> forall i :: 0 <= i < |n.nodes| ==>
      if Begun(n, i, exited, st) then Consistent(n.nodes[i], exited, st) else exited !! Ids(n.nodes[i])
  }

  /** The started executables that have not exited. */
  ghost function Live(n: Node, exited: set<nat>, st: Status): set<nat>
    requires NonEmpty(n)
  {
    if n.Executable? then {n.id} - exited
    else set i, x | 0 <= i < |n.nodes| && Begun(n, i, exited, st) && x in Live(n.nodes[i], exited, st) :: x
  }

  // ---- locality

  ghost predicate SameOn<T>(ids: set<nat>, a: map<nat, T>, b: map<nat, T>) {
    forall x :: x in ids ==> (x in a <==> x in b) && (x in a ==> a[x] == b[x])
  }

  /** Everything above looks only at the exits inside the tree. */
  lemma {:induction false} DoneLocal(n: Node, e: set<nat>, f: set<nat>, st: Status)
    requires NonEmpty(n) && forall x :: x in Ids(n) ==> (x in e <==> x in f)
    ensures Done(n, e, st) == Done(n, f, st)
  {
    if n.Operands? {
      forall i | 0 <= i < |n.nodes| ensures Done(n.nodes[i], e, st) == Done(n.nodes[i], f, st) {
        DoneLocal(n.nodes[i], e, f, st);
      }
    }
  }

  lemma {:induction false} StateLocal(n: Node, e: set<nat>, f: set<nat>, st: Status, r: Results, q: Results)
    requires NonEmpty(n) && forall x :: x in Ids(n) ==> (x in e <==> x in f)
    requires SameOn(Ids(n), r, q)
    requires State(n, e, st, r)
    ensures State(n, f, st, q)
  {
    DoneLocal(n, e, f, st);
    assert n.id in Ids(n);
    if n.Operands? {
      forall i | 0 <= i < |n.nodes| ensures Done(n.nodes[i], e, st) == Done(n.nodes[i], f, st) {
        DoneLocal(n.nodes[i], e, f, st);
      }
      forall i | 0 <= i < |n.nodes| && Begun(n, i, f, st) ensures State(n.nodes[i], f, st, q) {
        assert Begun(n, i, e, st);
        StateLocal(n.nodes[i], e, f, st, r, q);
      }
      forall i | 0 <= i < |n.nodes| && !Begun(n, i, f, st) ensures Untouched(n.nodes[i], q) {
        assert !Begun(n, i, e, st);
      }
    }
  }

  lemma {:induction false} ConsistentLocal(n: Node, e: set<nat>, f: set<nat>, st: Status)
    requires NonEmpty(n) && forall x :: x in Ids(n) ==> (x in e <==> x in f)
    requires Consistent(n, e, st)
    ensures Consistent(n, f, st)
  {
    if n.Operands? {
      forall i | 0 <= i < |n.nodes| ensures Done(n.nodes[i], e, st) == Done(n.nodes[i], f, st) {
        DoneLocal(n.nodes[i], e, f, st);
      }
      forall i | 0 <= i < |n.nodes| && Begun(n, i, f, st) ensures Consistent(n.nodes[i], f, st) {
        assert Begun(n, i, e, st);
        ConsistentLocal(n.nodes[i], e, f, st);
      }
      forall i | 0 <= i < |n.nodes| && !Begun(n, i, f, st) ensures f !! Ids(n.nodes[i]) {
        assert !Begun(n, i, e, st);
      }
    }
  }

  lemma {:induction false} NothingDone(n: Node, e: set<nat>, st: Status)
    requires NonEmpty(n) && e !! Ids(n)
    ensures !Done(n, e, st)
  {
    if n.Operands? {
      NothingDone(n.nodes[if n.kind == Pipe then |n.nodes| - 1 else 0], e, st);
    }
  }

  lemma {:induction false} DoneMonotone(n: Node, e: set<nat>, f: set<nat>, st: Status)
    requires NonEmpty(n) && e <= f && Done(n, e, st)
    ensures Done(n, f, st)
  {
    if n.Operands? {
      if n.kind == Pipe {
        DoneMonotone(n.nodes[|n.nodes| - 1], e, f, st);
      } else {
        forall i | 0 <= i < |n.nodes| && i <= Last(n, st) ensures Done(n.nodes[i], f, st) {
          DoneMonotone(n.nodes[i], e, f, st);
        }
      }
    }
  }

  // ---- one more exit

  /** When a live executable exits, `exited` stays consistent. */
  lemma {:induction false} ConsistentStep(n: Node, e: set<nat>, x: nat, st: Status)
    requires WellFormed(n) && Consistent(n, e, st) && x in Live(n, e, st)
    ensures Consistent(n, e + {x}, st)
    ensures x in Ids(n) && x !in e
  {
    if n.Operands? {
      var k :| 0 <= k < |n.nodes| && Begun(n, k, e, st) && x in Live(n.nodes[k], e, st);
      ConsistentStep(n.nodes[k], e, x, st);
      forall i | 0 <= i < |n.nodes| && i != k ensures x !in Ids(n.nodes[i]) {}
      forall i | 0 <= i < |n.nodes|
        ensures if Begun(n, i, e + {x}, st) then Consistent(n.nodes[i], e + {x}, st)
                else (e + {x}) !! Ids(n.nodes[i])
      {
        if i < k && n.kind != Pipe {
          assert Begun(n, i, e, st);
        }
        if i != k {
          if Begun(n, i, e, st) {
            ConsistentLocal(n.nodes[i], e, e + {x}, st);
            BegunMonotone(n, i, e, e + {x}, st);
          } else if Begun(n, i, e + {x}, st) {
            NothingExitedConsistent(n.nodes[i], e + {x}, st);
          }
        } else {
          BegunMonotone(n, k, e, e + {x}, st);
        }
      }
    }
  }

  lemma BegunMonotone(n: Node, i: nat, e: set<nat>, f: set<nat>, st: Status)
    requires NonEmpty(n) && n.Operands? && i < |n.nodes| && e <= f && Begun(n, i, e, st)
    ensures Begun(n, i, f, st)
  {
    if n.kind != Pipe {
      forall j | 0 <= j < i ensures Done(n.nodes[j], f, st) {
        DoneMonotone(n.nodes[j], e, f, st);
      }
    }
  }

  lemma {:induction false} NothingExitedConsistent(n: Node, e: set<nat>, st: Status)
    requires NonEmpty(n) && e !! Ids(n)
    ensures Consistent(n, e, st)
  {
    if n.Operands? {
      forall i | 0 <= i < |n.nodes| ensures e !! Ids(n.nodes[i]) && Consistent(n.nodes[i], e, st) {
        NothingExitedConsistent(n.nodes[i], e, st);
      }
    }
  }

  // ---- invariants every reachable state has

  /** A started, unfinished And, Or or Semicolon has exactly one started unfinished operand: all
      earlier ones are finished, all later ones never started. A finished one has started exactly
      the operands up to the one that ended it, all of them finished. */
  lemma OneOperandRuns(n: Node, e: set<nat>, st: Status) returns (k: nat)
    requires WellFormed(n) && n.Operands? && n.kind != Pipe && Consistent(n, e, st)
    ensures k <= Last(n, st)
    ensures forall i :: 0 <= i < |n.nodes| ==> (Begun(n, i, e, st) <==> i <= k)
    ensures forall i :: 0 <= i < k ==> Done(n.nodes[i], e, st)
    ensures forall i :: k < i < |n.nodes| ==> !Done(n.nodes[i], e, st)
    ensures Done(n, e, st) <==> k == Last(n, st) && Done(n.nodes[k], e, st)
    ensures !Done(n, e, st) ==> !Done(n.nodes[k], e, st)
  {
    k := 0;
    while k < Last(n, st) && Done(n.nodes[k], e, st)
      invariant k <= Last(n, st)
      invariant forall i :: 0 <= i < k ==> Done(n.nodes[i], e, st)
    {
      k := k + 1;
    }
    forall i | k < i < |n.nodes| ensures !Begun(n, i, e, st) && !Done(n.nodes[i], e, st) {
      assert !Begun(n, i, e, st);
      NothingDone(n.nodes[i], e, st);
    }
  }

  /** If nothing is live, everything that runs has finished, and what ran is what the evaluator
      reaches. */
  lemma {:induction false} QuiescentDone(n: Node, e: set<nat>, st: Status)
    requires WellFormed(n) && Consistent(n, e, st) && Live(n, e, st) == {}
    ensures Done(n, e, st)
    ensures forall i :: n.Operands? && 0 <= i < |n.nodes| ==>
              (Begun(n, i, e, st) <==> i <= Last(n, st)) && (i <= Last(n, st) ==> Done(n.nodes[i], e, st))
    decreases n, if n.Operands? then |n.nodes| + 1 else 0
  {
    if n.Executable? {
      assert n.id in Live(n, e, st) <==> n.id !in e;
    } else {
      QuiescentPrefix(n, Last(n, st) + 1, e, st);
      if n.kind == Pipe {
        NoStop(n, 0, st);
      }
    }
  }

  lemma LiveOfOperand(n: Node, i: nat, e: set<nat>, st: Status)
    requires NonEmpty(n) && n.Operands? && i < |n.nodes| && Begun(n, i, e, st)
    ensures Live(n.nodes[i], e, st) <= Live(n, e, st)
  {
  }

  lemma {:induction false} NoStop(n: Node, i: nat, st: Status)
    requires NonEmpty(n) && n.Operands? && i < |n.nodes| && (n.kind == Pipe || n.kind == Semicolon)
    ensures LastFrom(n, i, st) == |n.nodes| - 1
    decreases |n.nodes| - i
  {
    if i + 1 < |n.nodes| {
      NoStop(n, i + 1, st);
    }
  }

  lemma {:induction false} QuiescentPrefix(n: Node, m: nat, e: set<nat>, st: Status)
    requires WellFormed(n) && n.Operands? && Consistent(n, e, st) && Live(n, e, st) == {}
    requires m <= Last(n, st) + 1
    ensures forall i :: 0 <= i < m ==> Begun(n, i, e, st) && Done(n.nodes[i], e, st)
    decreases n, m
  {
    if m > 0 {
      QuiescentPrefix(n, m - 1, e, st);
      assert Begun(n, m - 1, e, st);
      LiveOfOperand(n, m - 1, e, st);
      QuiescentDone(n.nodes[m - 1], e, st);
    }
  }

  /** Every node the evaluator reaches has the exit code it computes. */
  ghost predicate EvaluatedIn(n: Node, st: Status, r: Results)
    requires NonEmpty(n)
  {
    forall p: seq<nat> :: ValidPath(n, p) && At(n, p).id in Reached(n, st) ==>
      At(n, p).id in r && NonEmpty(At(n, p)) && r[At(n, p).id] == Some(Eval(At(n, p), st))
  }

  /** The refinement theorem. When no started executable is left, the results are those of the
      evaluator: exactly the nodes it reaches have a result, each with the code it computes. */
  lemma {:induction false} QuiescentResults(n: Node, e: set<nat>, st: Status, r: Results)
    requires WellFormed(n) && Consistent(n, e, st) && Live(n, e, st) == {} && State(n, e, st, r)
    ensures forall x :: x in Ids(n) ==> (x in r <==> x in Reached(n, st))
    ensures EvaluatedIn(n, st, r)
  {
    QuiescentDone(n, e, st);
    if n.Operands? {
      forall i | 0 <= i < |n.nodes| && i <= Last(n, st)
        ensures Consistent(n.nodes[i], e, st) && Live(n.nodes[i], e, st) == {} && State(n.nodes[i], e, st, r)
      {
        assert Begun(n, i, e, st);
        LiveOfOperand(n, i, e, st);
      }
      forall i | 0 <= i < |n.nodes| && i <= Last(n, st)
        ensures forall x :: x in Ids(n.nodes[i]) ==> (x in r <==> x in Reached(n.nodes[i], st))
        ensures EvaluatedIn(n.nodes[i], st, r)
      {
        QuiescentResults(n.nodes[i], e, st, r);
      }
    }
    forall x | x in Ids(n) ensures x in r <==> x in Reached(n, st) {
      if n.Operands? && x != n.id {
        var i :| 0 <= i < |n.nodes| && x in Ids(n.nodes[i]);
        ReachedElsewhere(n, i, x, st);
        if i > Last(n, st) {
          assert !Begun(n, i, e, st);
        }
      }
    }
    forall p: seq<nat> | ValidPath(n, p) && At(n, p).id in Reached(n, st)
      ensures At(n, p).id in r && NonEmpty(At(n, p)) && r[At(n, p).id] == Some(Eval(At(n, p), st))
    {
      if p != [] {
        AtFacts(n.nodes[p[0]], p[1..]);
        ReachedElsewhere(n, p[0], At(n, p).id, st);
      }
    }
  }

  lemma {:induction false} ReachedAreIds(n: Node, st: Status)
    requires NonEmpty(n)
    ensures Reached(n, st) <= Ids(n)
  {
    if n.Operands? {
      forall i | 0 <= i < |n.nodes| ensures Reached(n.nodes[i], st) <= Ids(n.nodes[i]) {
        ReachedAreIds(n.nodes[i], st);
      }
    }
  }

  lemma ReachedElsewhere(n: Node, i: nat, x: nat, st: Status)
    requires WellFormed(n) && n.Operands? && i < |n.nodes| && x in Ids(n.nodes[i])
    ensures x in Reached(n, st) <==> i <= Last(n, st) && x in Reached(n.nodes[i], st)
  {
    forall j | 0 <= j < |n.nodes| && x in Reached(n.nodes[j], st) ensures j == i {
      ReachedAreIds(n.nodes[j], st);
    }
  }

  /** The live executables are the executables with a result that have not exited. */
  lemma {:induction false} LiveIsStarted(n: Node, e: set<nat>, st: Status, r: Results)
    requires WellFormed(n) && State(n, e, st, r)
    ensures forall x :: x in Live(n, e, st) <==> x in Execs(n) && x in r && x !in e
  {
    if n.Operands? {
      forall i | 0 <= i < |n.nodes| && Begun(n, i, e, st)
        ensures forall x :: x in Live(n.nodes[i], e, st) <==> x in Execs(n.nodes[i]) && x in r && x !in e
      {
        LiveIsStarted(n.nodes[i], e, st, r);
      }
      forall x ensures x in Live(n, e, st) <==> x in Execs(n) && x in r && x !in e {
        if x in Execs(n) && x in r && x !in e {
          var i :| 0 <= i < |n.nodes| && x in Execs(n.nodes[i]);
          ExecsAreIds(n.nodes[i]);
          assert Begun(n, i, e, st);
          assert x in Live(n.nodes[i], e, st);
        }
      }
    }
  }

  // ---- what the results of any reachable state look like

  /** The results are a function of the tree, the statuses and the set of exits, whatever the order
      of the exits was. */
  lemma {:induction false} StateDetermined(n: Node, e: set<nat>, st: Status, r: Results, q: Results)
    requires NonEmpty(n) && State(n, e, st, r) && State(n, e, st, q)
    ensures SameOn(Ids(n), r, q)
  {
    if n.Operands? {
      forall i | 0 <= i < |n.nodes| ensures SameOn(Ids(n.nodes[i]), r, q) {
        if Begun(n, i, e, st) {
          StateDetermined(n.nodes[i], e, st, r, q);
        }
      }
    }
  }

  /** A node that has a result is itself in a state of the kind the root is in. */
  lemma {:induction false} StartedInside(n: Node, p: seq<nat>, e: set<nat>, st: Status, r: Results)
    requires WellFormed(n) && State(n, e, st, r) && Consistent(n, e, st) && ValidPath(n, p) && At(n, p).id in r
    ensures WellFormed(At(n, p)) && State(At(n, p), e, st, r) && Consistent(At(n, p), e, st)
  {
    AtFacts(n, p);
    if p != [] {
      AtFacts(n.nodes[p[0]], p[1..]);
      assert Begun(n, p[0], e, st);
      StartedInside(n.nodes[p[0]], p[1..], e, st, r);
    }
  }

  /** node->result is set and its exit code is set. */
  ghost predicate Finished(n: Node, r: Results) {
    n.id in r && r[n.id].Some?
  }

  /** Anywhere in the tree: a started And, Or or Semicolon has started exactly its first k + 1
      operands, finished the first k of them, and operand k is unfinished as long as the operator
      is; a started Pipe has started all operands and is finished exactly when the last one is. */
  lemma OperatorShape(n: Node, p: seq<nat>, e: set<nat>, st: Status, r: Results) returns (k: nat)
    requires WellFormed(n) && State(n, e, st, r) && Consistent(n, e, st) && ValidPath(n, p)
    requires At(n, p).Operands? && At(n, p).id in r
    ensures var op := At(n, p);
      && k < |op.nodes|
      && (op.kind != Pipe ==>
            && (forall i :: 0 <= i < |op.nodes| ==> (op.nodes[i].id in r <==> i <= k))
            && (forall i :: 0 <= i < k ==> Finished(op.nodes[i], r))
            && (!Finished(op, r) ==> !Finished(op.nodes[k], r))
            && (Finished(op, r) ==> Finished(op.nodes[k], r)))
      && (op.kind == Pipe ==>
            && (forall i :: 0 <= i < |op.nodes| ==> op.nodes[i].id in r)
            && (Finished(op, r) <==> Finished(op.nodes[|op.nodes| - 1], r)))
  {
    var op := At(n, p);
    StartedInside(n, p, e, st, r);
    assert forall i :: 0 <= i < |op.nodes| ==> op.nodes[i].id in Ids(op.nodes[i]);
    if op.kind == Pipe {
      k := 0;
      assert forall i :: 0 <= i < |op.nodes| ==> Begun(op, i, e, st);
    } else {
      k := OneOperandRuns(op, e, st);
    }
  }
}
