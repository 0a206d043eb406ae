/** One exit at a time: how the notifications that climb from an exited executable towards the
    root turn the state for the exits `e` into the state for `e + {x}`. */
module Climb {
  import opened Nodes
  import opened Semantics

  /** The state half-way through the notifications that follow an exit: the node at path q is up
      to date with the exits `f`, its strict ancestors still show the exits `e`. */
  ghost predicate Midway(n: Node, q: seq<nat>, e: set<nat>, f: set<nat>, st: Status, r: Results)
    requires NonEmpty(n)
  {
    if q == [] then State(n, f, st, r)
    else
      && n.Operands? && q[0] < |n.nodes| && Begun(n, q[0], e, st)
      && n.id in r && r[n.id] == CodeOf(n, e, st)
      && Midway(n.nodes[q[0]], q[1..], e, f, st, r)
      && forall i :: 0 <= i < |n.nodes| && i != q[0] ==>
           if Begun(n, i, e, st) then State(n.nodes[i], e, st, r) else Untouched(n.nodes[i], r)
  }

  lemma {:induction false} MidwayPath(n: Node, q: seq<nat>, e: set<nat>, f: set<nat>, st: Status, r: Results)
    requires NonEmpty(n) && Midway(n, q, e, f, st, r)
    ensures ValidPath(n, q) && NonEmpty(At(n, q)) && State(At(n, q), f, st, r)
  {
    if q != [] {
      MidwayPath(n.nodes[q[0]], q[1..], e, f, st, r);
    }
  }

  /** Reading the operator above the node that is up to date. */
  lemma {:induction false} MidwayParent(n: Node, p: seq<nat>, k: nat, e: set<nat>, f: set<nat>, st: Status, r: Results)
    requires NonEmpty(n) && Midway(n, p + [k], e, f, st, r)
    ensures ValidPath(n, p) && NonEmpty(At(n, p)) && Midway(At(n, p), [k], e, f, st, r)
    ensures At(n, p).Operands? && k < |At(n, p).nodes|
  {
    if p != [] {
      assert (p + [k])[1..] == p[1..] + [k];
      MidwayParent(n.nodes[p[0]], p[1..], k, e, f, st, r);
    } else {
      assert p + [k] == [k] && (p + [k])[1..] == [];
    }
  }

  /** Bringing the operator above up to date moves the midpoint one level up. */
  lemma {:induction false} MidwayUp(n: Node, p: seq<nat>, k: nat, e: set<nat>, f: set<nat>, st: Status,
      r: Results, q: Results)
    requires WellFormed(n) && Midway(n, p + [k], e, f, st, r)
    requires ValidPath(n, p) && NonEmpty(At(n, p)) && State(At(n, p), f, st, q)
    requires forall x :: x in Ids(n) && x !in Ids(At(n, p)) ==> (x in r <==> x in q) && (x in r ==> r[x] == q[x])
    ensures Midway(n, p, e, f, st, q)
  {
    if p != [] {
      var c := n.nodes[p[0]];
      assert (p + [k])[1..] == p[1..] + [k];
      AtFacts(c, p[1..]);
      MidwayUp(c, p[1..], k, e, f, st, r, q);
      forall i | 0 <= i < |n.nodes| && i != p[0]
        ensures if Begun(n, i, e, st) then State(n.nodes[i], e, st, q) else Untouched(n.nodes[i], q)
      {
        assert Ids(n.nodes[i]) !! Ids(c);
        assert SameOn(Ids(n.nodes[i]), r, q);
        if Begun(n, i, e, st) {
          StateLocal(n.nodes[i], e, e, st, r, q);
        }
      }
    }
  }

  /** If the up-to-date node is as done as it was before the exit, nobody above has to hear. */
  lemma {:induction false} MidwaySettled(n: Node, q: seq<nat>, e: set<nat>, x: nat, st: Status, r: Results)
    requires WellFormed(n) && Midway(n, q, e, e + {x}, st, r)
    requires ValidPath(n, q) && NonEmpty(At(n, q)) && x in Ids(At(n, q))
    requires Done(At(n, q), e, st) == Done(At(n, q), e + {x}, st)
    ensures State(n, e + {x}, st, r)
    ensures Done(n, e, st) == Done(n, e + {x}, st)
  {
    if q != [] {
      var k, f := q[0], e + {x};
      AtFacts(n.nodes[k], q[1..]);
      MidwaySettled(n.nodes[k], q[1..], e, x, st, r);
      forall i | 0 <= i < |n.nodes| ensures Done(n.nodes[i], e, st) == Done(n.nodes[i], f, st) {
        if i != k {
          DoneLocal(n.nodes[i], e, f, st);
        }
      }
      forall i | 0 <= i < |n.nodes| && Begun(n, i, f, st) ensures State(n.nodes[i], f, st, r) {
        assert Begun(n, i, e, st);
        if i != k {
          StateLocal(n.nodes[i], e, f, st, r, r);
        }
      }
      forall i | 0 <= i < |n.nodes| && !Begun(n, i, f, st) ensures Untouched(n.nodes[i], r) {
        assert !Begun(n, i, e, st);
      }
    }
  }

  /** Recording the exit of a live executable is the first midpoint. */
  lemma {:induction false} ExitIsMidway(n: Node, p: seq<nat>, e: set<nat>, st: Status, r: Results)
    requires WellFormed(n) && ValidPath(n, p) && At(n, p).Executable?
    requires State(n, e, st, r) && At(n, p).id in Live(n, e, st)
    ensures var x := At(n, p).id; Midway(n, p, e, e + {x}, st, r[x := Some(st(x))])
    ensures At(n, p).id !in e
  {
    var x := At(n, p).id;
    var q := r[x := Some(st(x))];
    if p != [] {
      var k := p[0];
      AtFacts(n.nodes[k], p[1..]);
      var i :| 0 <= i < |n.nodes| && Begun(n, i, e, st) && x in Live(n.nodes[i], e, st);
      LiveAreIds(n.nodes[i], e, st);
      assert i == k;
      ExitIsMidway(n.nodes[k], p[1..], e, st, r);
      forall j | 0 <= j < |n.nodes| && j != k
        ensures if Begun(n, j, e, st) then State(n.nodes[j], e, st, q) else Untouched(n.nodes[j], q)
      {
        assert SameOn(Ids(n.nodes[j]), r, q);
        if Begun(n, j, e, st) {
          StateLocal(n.nodes[j], e, e, st, r, q);
        }
      }
    }
  }

  lemma {:induction false} LiveAreIds(n: Node, e: set<nat>, st: Status)
    requires NonEmpty(n)
    ensures Live(n, e, st) <= Ids(n)
  {
    if n.Operands? {
      forall i | 0 <= i < |n.nodes| ensures Live(n.nodes[i], e, st) <= Ids(n.nodes[i]) {
        LiveAreIds(n.nodes[i], e, st);
      }
    }
  }

  // ---- what the operator above does with a finished operand

  /** Operand k of n has just finished because x exited. */
  ghost predicate JustFinished(n: Node, k: nat, e: set<nat>, x: nat, st: Status, r: Results) {
    && WellFormed(n) && Consistent(n, e, st) && n.Operands? && k < |n.nodes|
    && Midway(n, [k], e, e + {x}, st, r)
    && x in Ids(n.nodes[k])
    && !Done(n.nodes[k], e, st) && Done(n.nodes[k], e + {x}, st)
  }

  lemma JustFinishedFacts(n: Node, k: nat, e: set<nat>, x: nat, st: Status, r: Results)
    requires JustFinished(n, k, e, x, st, r)
    ensures Begun(n, k, e, st) && State(n.nodes[k], e + {x}, st, r)
    ensures n.id in r && r[n.id] == CodeOf(n, e, st)
    ensures forall i :: 0 <= i < |n.nodes| && i != k ==>
              if Begun(n, i, e, st) then State(n.nodes[i], e, st, r) else Untouched(n.nodes[i], r)
  {
    assert [k][1..] == [];
    assert Midway(n.nodes[k], [], e, e + {x}, st, r);
  }

  /** Only operand k can see the exit. */
  lemma OthersUnmoved(n: Node, k: nat, e: set<nat>, x: nat, st: Status)
    requires WellFormed(n) && n.Operands? && k < |n.nodes| && x in Ids(n.nodes[k])
    ensures forall i :: 0 <= i < |n.nodes| && i != k ==> Done(n.nodes[i], e, st) == Done(n.nodes[i], e + {x}, st)
  {
    forall i | 0 <= i < |n.nodes| && i != k
      ensures Done(n.nodes[i], e, st) == Done(n.nodes[i], e + {x}, st)
    {
      DoneLocal(n.nodes[i], e, e + {x}, st);
    }
  }

  lemma OthersState(n: Node, k: nat, e: set<nat>, x: nat, st: Status, r: Results, q: Results)
    requires JustFinished(n, k, e, x, st, r)
    requires forall i :: 0 <= i < |n.nodes| && Begun(n, i, e, st) ==> SameOn(Ids(n.nodes[i]), r, q)
    ensures forall i :: 0 <= i < |n.nodes| && Begun(n, i, e, st) ==> State(n.nodes[i], e + {x}, st, q)
  {
    var f := e + {x};
    JustFinishedFacts(n, k, e, x, st, r);
    forall i | 0 <= i < |n.nodes| && Begun(n, i, e, st) ensures State(n.nodes[i], f, st, q) {
      if i == k {
        StateLocal(n.nodes[k], f, f, st, r, q);
      } else {
        StateLocal(n.nodes[i], e, f, st, r, q);
      }
    }
  }

  /** Where an And, Or or Semicolon stands when operand k has just finished. */
  lemma SequenceBefore(n: Node, k: nat, e: set<nat>, x: nat, st: Status, r: Results)
    requires JustFinished(n, k, e, x, st, r) && n.kind != Pipe
    ensures k <= Last(n, st) && r[n.id] == None && !Done(n, e, st)
    ensures forall i :: 0 <= i < |n.nodes| ==> (Begun(n, i, e, st) <==> i <= k)
    ensures forall i :: 0 <= i < k ==> Done(n.nodes[i], e, st)
    ensures forall i :: k < i < |n.nodes| ==> Untouched(n.nodes[i], r) && !Done(n.nodes[i], e, st)
    ensures n.nodes[k].id in r && r[n.nodes[k].id] == Some(Eval(n.nodes[k], st))
  {
    JustFinishedFacts(n, k, e, x, st, r);
    var j := OneOperandRuns(n, e, st);
    assert j == k;
  }

  /** Which operands have begun once operand k of an And, Or or Semicolon has finished. */
  lemma SequenceAfter(n: Node, k: nat, e: set<nat>, x: nat, st: Status, r: Results)
    requires JustFinished(n, k, e, x, st, r) && n.kind != Pipe
    ensures forall i :: 0 <= i < |n.nodes| ==> (Begun(n, i, e + {x}, st) <==> i <= k + 1 && i <= Last(n, st))
    ensures Done(n, e + {x}, st) <==> k == Last(n, st)
    ensures k == Last(n, st) <==> k + 1 == |n.nodes| || Stops(n.kind, Eval(n.nodes[k], st))
  {
    SequenceBefore(n, k, e, x, st, r);
    OthersUnmoved(n, k, e, x, st);
    forall i | 0 <= i < |n.nodes|
      ensures Begun(n, i, e + {x}, st) <==> i <= k + 1 && i <= Last(n, st)
    {
      if i > k + 1 {
        assert !Done(n.nodes[k + 1], e + {x}, st);
      }
    }
    if k < Last(n, st) {
      assert !Done(n.nodes[k + 1], e + {x}, st);
    }
  }

  /** The operator is told and starts its next operand. */
  lemma NextOperandStarted(n: Node, k: nat, e: set<nat>, x: nat, st: Status, r: Results, q: Results)
    requires JustFinished(n, k, e, x, st, r) && n.kind != Pipe && k < Last(n, st)
    requires State(n.nodes[k + 1], {}, st, q)
    requires forall i :: i !in Ids(n.nodes[k + 1]) ==> (i in r <==> i in q) && (i in r ==> r[i] == q[i])
    ensures State(n, e + {x}, st, q) && !Done(n, e + {x}, st)
  {
    var f := e + {x};
    SequenceBefore(n, k, e, x, st, r);
    SequenceAfter(n, k, e, x, st, r);
    JustFinishedFacts(n, k, e, x, st, r);
    OthersState(n, k, e, x, st, r, q);
    forall i | 0 <= i < |n.nodes|
      ensures if Begun(n, i, f, st) then State(n.nodes[i], f, st, q) else Untouched(n.nodes[i], q)
    {
      if i == k + 1 {
        assert !Begun(n, i, e, st);
        StateLocal(n.nodes[i], {}, f, st, q, q);
      }
    }
  }

  /** The operator is told and ends. */
  lemma OperatorEnded(n: Node, k: nat, e: set<nat>, x: nat, st: Status, r: Results, q: Results)
    requires JustFinished(n, k, e, x, st, r)
    requires if n.kind == Pipe then k + 1 == |n.nodes| else k == Last(n, st)
    requires q == r[n.id := Some(Verdict(n.kind, Eval(n.nodes[k], st)))]
    ensures State(n, e + {x}, st, q) && Done(n, e + {x}, st) && !Done(n, e, st)
  {
    var f := e + {x};
    EvalFromLast(n, 0, st);
    JustFinishedFacts(n, k, e, x, st, r);
    if n.kind == Pipe {
      NoStop(n, 0, st);
    } else {
      SequenceBefore(n, k, e, x, st, r);
      SequenceAfter(n, k, e, x, st, r);
    }
    OthersState(n, k, e, x, st, r, q);
  }

  /** A Pipe is told of an operand that is not its last: nothing changes. */
  lemma PipeGoesOn(n: Node, k: nat, e: set<nat>, x: nat, st: Status, r: Results)
    requires JustFinished(n, k, e, x, st, r) && n.kind == Pipe && k + 1 < |n.nodes|
    ensures State(n, e + {x}, st, r) && Done(n, e, st) == Done(n, e + {x}, st)
  {
    JustFinishedFacts(n, k, e, x, st, r);
    OthersUnmoved(n, k, e, x, st);
    OthersState(n, k, e, x, st, r, r);
  }

  /** JustFinished for the father of the node that is up to date. */
  lemma FatherIsTold(n: Node, p: seq<nat>, k: nat, e: set<nat>, x: nat, st: Status, r: Results)
    requires WellFormed(n) && Consistent(n, e, st) && Midway(n, p + [k], e, e + {x}, st, r)
    requires ValidPath(n, p + [k]) && NonEmpty(At(n, p + [k])) && x in Ids(At(n, p + [k]))
    requires !Done(At(n, p + [k]), e, st) && Done(At(n, p + [k]), e + {x}, st)
    ensures ValidPath(n, p) && JustFinished(At(n, p), k, e, x, st, r)
    ensures x in Ids(At(n, p)) && At(n, p).nodes[k] == At(n, p + [k])
  {
    MidwayParent(n, p, k, e, e + {x}, st, r);
    ExtendPath(n, p, k);
    AtFacts(n, p);
    MidwayConsistent(n, p, k, e, e + {x}, st, r);
  }

  lemma {:induction false} MidwayConsistent(n: Node, p: seq<nat>, k: nat, e: set<nat>, f: set<nat>, st: Status,
      r: Results)
    requires NonEmpty(n) && Midway(n, p + [k], e, f, st, r) && Consistent(n, e, st)
    ensures ValidPath(n, p) && NonEmpty(At(n, p)) && Consistent(At(n, p), e, st)
  {
    if p != [] {
      assert (p + [k])[1..] == p[1..] + [k];
      MidwayConsistent(n.nodes[p[0]], p[1..], k, e, f, st, r);
    }
  }

  // ---- the same steps as the engine takes them

  /** a and b differ at most at `ids`. */
  ghost predicate SameOff(ids: set<nat>, a: Results, b: Results) {
    forall x :: x !in ids ==> (x in a <==> x in b) && (x in a ==> a[x] == b[x])
  }

  lemma NothingChanged(ids: set<nat>, r: Results)
    ensures SameOff(ids, r, r)
  {
  }

  /** The exit code of the completed operand has been set. */
  lemma CompletedCode(n: Node, k: nat, e: set<nat>, x: nat, st: Status, r: Results)
    requires JustFinished(n, k, e, x, st, r)
    ensures n.nodes[k].id in r && r[n.nodes[k].id] == Some(Eval(n.nodes[k], st))
  {
    JustFinishedFacts(n, k, e, x, st, r);
  }

  lemma NextStarted(n: Node, k: nat, e: set<nat>, x: nat, st: Status, r: Results, q: Results)
    requires JustFinished(n, k, e, x, st, r) && n.kind != Pipe && k < Last(n, st)
    requires k + 1 < |n.nodes| && State(n.nodes[k + 1], {}, st, q) && SameOff(Ids(n.nodes[k + 1]), r, q)
    ensures State(n, e + {x}, st, q) && !Done(n, e + {x}, st) && SameOff(Ids(n), r, q)
  {
    NextOperandStarted(n, k, e, x, st, r, q);
    OperandsApart(n);
  }

  lemma OperandInside(n: Node, p: seq<nat>, op: Node, k: nat, x: nat)
    requires WellFormed(n) && ValidPath(n, p) && At(n, p) == op && op.Operands? && k < |op.nodes|
    requires x in Ids(op.nodes[k])
    ensures x in Ids(op) && NonEmpty(op) && Distinct(op)
  {
    AtFacts(n, p);
  }

  /** The midpoint moves up to the operator that has been told; if the operator is as done as it
      was, the climb is over. */
  lemma TellSettles(n: Node, p: seq<nat>, k: nat, e: set<nat>, x: nat, st: Status, r: Results, q: Results)
    requires WellFormed(n) && Midway(n, p + [k], e, e + {x}, st, r)
    requires ValidPath(n, p) && NonEmpty(At(n, p)) && x in Ids(At(n, p))
    requires State(At(n, p), e + {x}, st, q) && SameOff(Ids(At(n, p)), r, q)
    ensures Midway(n, p, e, e + {x}, st, q)
    ensures p == [] ==> State(n, e + {x}, st, q)
    ensures Done(At(n, p), e + {x}, st) == Done(At(n, p), e, st) ==> State(n, e + {x}, st, q)
  {
    MidwayUp(n, p, k, e, e + {x}, st, r, q);
    if Done(At(n, p), e + {x}, st) == Done(At(n, p), e, st) {
      MidwaySettled(n, p, e, x, st, q);
    }
  }
}
