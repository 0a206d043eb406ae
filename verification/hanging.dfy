/** Which appenders never see the end of their input while the parent lives, and which commands read
    what they write (src/execute/execute.c). */
module Hanging {
  import opened Nodes
  import opened Semantics
  import opened Streams
  import opened Wire
  import opened Accounting
  import opened Execution
  import opened HeldEnds

  /** What a node writes never ends: it is written by an appender that reads the pipe of an operand that
      is skipped, whose write end the parent holds, or that reads what itself never ends. */
  ghost predicate NeverEnds(n: Node, st: Status)
    requires NonEmpty(n)
  {
    if n.Executable? then false
    else if n.kind == Pipe then NeverEnds(n.nodes[|n.nodes| - 1], st)
    else
      || Last(n, st) < |n.nodes| - 1
      || exists i :: 0 <= i <= Last(n, st) && NeverEnds(n.nodes[i], st)
  }

  /** The executable at p reads what never ends; `input` says whether n's own input is of this kind. */
  ghost predicate Fed(n: Node, p: seq<nat>, st: Status, input: bool)
    requires NonEmpty(n) && ValidPath(n, p)
  {
    if p == [] then n.Executable? && input
    else if p[0] == 0 then Fed(n.nodes[0], p[1..], st, input)
    else Fed(n.nodes[p[0]], p[1..], st, n.kind == Pipe && NeverEnds(n.nodes[p[0] - 1], st))
  }

  // ---- held from the start

  lemma SkippedIsUnstarted(n: Node, j: nat, e: set<nat>, st: Status, r: Results)
    requires WellFormed(n) && State(n, e, st, r) && Appends(n) && Last(n, st) < j < |n.nodes|
    ensures n.nodes[j].id !in r
  {
    assert !Begun(n, j, e, st);
    assert n.nodes[j].id in Ids(n.nodes[j]);
  }

  /** From the start of an And, Or or Semicolon on, the parent holds the write ends of the operands that
      will be skipped. */
  lemma SkippedIsHeld(engine: Engine, p: seq<nat>, j: nat)
    requires engine.Valid() && Closed(engine.world.wiring, engine.world.tree)
    requires ValidPath(engine.world.tree, p) && Appends(At(engine.world.tree, p))
    requires At(engine.world.tree, p).id in engine.result && NonEmpty(At(engine.world.tree, p))
    requires Last(At(engine.world.tree, p), engine.status) < j < |At(engine.world.tree, p).nodes|
    ensures At(engine.world.tree, p).id in engine.world.wiring.appender
    ensures j < |engine.world.wiring.appender[At(engine.world.tree, p).id].from|
    ensures Tap(engine.world.wiring.appender[At(engine.world.tree, p).id].from[j], WriteEnd) in engine.openEnds
  {
    hide Awaited, Wired, Linear, FreshPids, PipesOk, TableOk, ChildrenOk, PidsOk, WaitOk, Connected, State, Consistent;
    var w, n := engine.world.wiring, engine.world.tree;
    StartedInside(n, p, engine.reaped, engine.status, engine.result);
    SkippedIsUnstarted(At(n, p), j, engine.reaped, engine.status, engine.result);
    HeldInRun(engine);
    ConnectedAt(w, n, p);
    Reading(w, At(n, p), j);
    var t := Tap(w.appender[At(n, p).id].from[j], WriteEnd);
    assert AwaitedAt(w, n, engine.result.Keys, t, p, j);
    AwaitedHere(w, n, engine.result.Keys, t, p, j);
  }

  lemma AwaitedHere(w: Wiring, n: Node, keys: set<nat>, t: Tap, p: seq<nat>, j: nat)
    requires AwaitedAt(w, n, keys, t, p, j)
    ensures Awaited(w, n, keys, t)
  {
  }

  /** Why a started appender hangs: the parent holds the write end of a pipe it reads, or what an
      operand writes into a pipe it reads never ends. */
  lemma WhyItHangs(engine: Engine, p: seq<nat>) returns (j: nat)
    requires engine.Valid() && Closed(engine.world.wiring, engine.world.tree)
    requires ValidPath(engine.world.tree, p) && Appends(At(engine.world.tree, p))
    requires At(engine.world.tree, p).id in engine.result && NonEmpty(At(engine.world.tree, p))
    requires NeverEnds(At(engine.world.tree, p), engine.status)
    ensures var op, w := At(engine.world.tree, p), engine.world.wiring;
            && op.id in w.appender && j < |op.nodes| && j < |w.appender[op.id].from|
            && Tap(w.appender[op.id].from[j], ReadEnd) in TapsOf(w, op)
            && StdOut(w, op.nodes[j]) == Some(w.appender[op.id].from[j])
            && (Tap(w.appender[op.id].from[j], WriteEnd) in engine.openEnds || NeverEnds(op.nodes[j], engine.status))
  {
    var n, st := engine.world.tree, engine.status;
    var op := At(n, p);
    if Last(op, st) < |op.nodes| - 1 {
      j := |op.nodes| - 1;
      SkippedIsHeld(engine, p, j);
    } else {
      j :| 0 <= j <= Last(op, st) && NeverEnds(op.nodes[j], st);
    }
    hide State, Consistent, NeverEnds, Awaited;
    ConnectedAt(engine.world.wiring, n, p);
    Reading(engine.world.wiring, op, j);
  }

  // ---- who reads what never ends

  /** The output of a node never ends exactly if it is written by an appender whose input does not. */
  lemma {:induction false} NeverEndingWriter(n: Node, st: Status)
    requires NonEmpty(n) && ValidPath(n, OutputWriter(n))
    ensures NonEmpty(At(n, OutputWriter(n)))
    ensures var writer := At(n, OutputWriter(n));
            NeverEnds(n, st) <==> Appends(writer) && NeverEnds(writer, st)
  {
    if n.Operands? && n.kind == Pipe {
      var last := n.nodes[|n.nodes| - 1];
      assert OutputWriter(n)[1..] == OutputWriter(last);
      NeverEndingWriter(last, st);
    }
  }

  /** An executable reads its tree's input, no pipe, or what one process of the tree writes: it is fed
      exactly if that input is of this kind, or that process is an appender that hangs. */
  lemma {:induction false} Feeder(w: Wiring, n: Node, p: seq<nat>, st: Status, input: bool)
    returns (outer: bool, q: seq<nat>)
    requires Connected(w, n) && NonEmpty(n) && ValidPath(n, p) && At(n, p).Executable?
    ensures StdIn(w, At(n, p)).Some?
    ensures outer ==> StdIn(w, At(n, p)) == StdIn(w, n) && (Fed(n, p, st, input) <==> input)
    ensures !outer && !StdIn(w, At(n, p)).value.PipeStream? ==> !Fed(n, p, st, input)
    ensures !outer && StdIn(w, At(n, p)).value.PipeStream? ==>
              Writes(w, n, q, StdIn(w, At(n, p)).value, st, Fed(n, p, st, input))
    decreases n
  {
    hide NeverEnds, Writes;
    if p == [] {
      return true, [];
    }
    var i, operand := p[0], n.nodes[p[0]];
    if i == 0 {
      outer, q := Feeder(w, operand, p[1..], st, input);
    } else {
      outer, q := Feeder(w, operand, p[1..], st, n.kind == Pipe && NeverEnds(n.nodes[i - 1], st));
    }
    if !outer {
      q := WritesAbove(w, n, i, q, StdIn(w, At(n, p)).value, st, Fed(n, p, st, input));
    } else if i > 0 {
      outer := false;
      if n.kind == Pipe {
        assert Linked(w, n.nodes, i - 1);
        q := WrittenBefore(w, n, i, st);
      } else {
        assert Collected(w, n.nodes, w.appender[n.id].from, i);
      }
    }
  }

  /** The process at q writes the pipe, and is an appender that hangs exactly if `hangs`. */
  ghost predicate Writes(w: Wiring, n: Node, q: seq<nat>, s: Stream, st: Status, hangs: bool) {
    && ValidPath(n, q) && NonEmpty(At(n, q)) && Tap(s, WriteEnd) in TapsOf(w, At(n, q))
    && (hangs <==> Appends(At(n, q)) && NeverEnds(At(n, q), st))
  }

  lemma WritesAbove(w: Wiring, n: Node, i: nat, q: seq<nat>, s: Stream, st: Status, hangs: bool) returns (q': seq<nat>)
    requires n.Operands? && i < |n.nodes|
    ensures Writes(w, n.nodes[i], q, s, st, hangs) ==> Writes(w, n, q', s, st, hangs)
  {
    q' := [i] + q;
    assert q'[1..] == q;
  }

  /** What operand i of a Pipe reads is written by operand i - 1. */
  lemma WrittenBefore(w: Wiring, n: Node, i: nat, st: Status) returns (q: seq<nat>)
    requires Connected(w, n) && NonEmpty(n) && n.Operands? && 0 < i < |n.nodes|
    requires StdOut(w, n.nodes[i - 1]).Some?
    ensures Writes(w, n, q, StdOut(w, n.nodes[i - 1]).value, st, NeverEnds(n.nodes[i - 1], st))
  {
    var before := n.nodes[i - 1];
    WriterTap(w, before);
    NeverEndingWriter(before, st);
    q := WritesAbove(w, n, i - 1, OutputWriter(before), StdOut(w, before).value, st, NeverEnds(before, st));
  }

  /** For every tree: an executable reads from a pipe that a hanging appender writes exactly if it is
      fed. The pipe's writer is unique, so this is the only process it can wait for. */
  lemma FedExactly(w: Wiring, n: Node, p: seq<nat>, st: Status)
    requires Closed(w, n) && WellFormed(n) && Linear(w, n) && ValidPath(n, p) && At(n, p).Executable?
    ensures StdIn(w, At(n, p)).Some?
    ensures Fed(n, p, st, false) <==>
              StdIn(w, At(n, p)).value.PipeStream?
              && exists q :: Writes(w, n, q, StdIn(w, At(n, p)).value, st, true)
  {
    hide NeverEnds;
    var outer, q := Feeder(w, n, p, st, false);
    var s := StdIn(w, At(n, p)).value;
    if !outer && s.PipeStream? {
      forall q' | Writes(w, n, q', s, st, true) ensures q' == q {
        OneUser(w, n, q, q', Tap(s, WriteEnd));
      }
    }
  }

  /** Some operand of n is skipped, or an appender whose output never ends writes a pipe that n's
      appender reads. */
  ghost predicate InputNeverEnds(w: Wiring, tree: Node, n: Node, st: Status)
    requires NonEmpty(n) && Appends(n) && n.id in w.appender && |w.appender[n.id].from| == |n.nodes|
  {
    || (exists j :: 0 <= j < |n.nodes| && n.nodes[j].id !in Reached(n, st))
    || (exists j, q :: 0 <= j < |n.nodes| && Writes(w, tree, q, w.appender[n.id].from[j], st, true))
  }

  /** For every tree: which appenders hang is determined by the skipped operands and by who writes
      the pipes they read. */
  lemma HangsExactly(w: Wiring, n: Node, p: seq<nat>, st: Status)
    requires Closed(w, n) && WellFormed(n) && Linear(w, n) && ValidPath(n, p) && Appends(At(n, p))
    ensures NonEmpty(At(n, p)) && At(n, p).id in w.appender
    ensures |w.appender[At(n, p).id].from| == |At(n, p).nodes|
    ensures NeverEnds(At(n, p), st) <==> InputNeverEnds(w, n, At(n, p), st)
  {
    hide Writes, Linear, Closed, Distinct, NeverEnds, Reached;
    assert Connected(w, n) by { ClosedParts(w, n); }
    var op := At(n, p);
    AtFacts(n, p);
    ConnectedAt(w, n, p);
    assert Appended(w, op);
    forall j | 0 <= j < |op.nodes|
      ensures op.nodes[j].id in Reached(op, st) <==> j <= Last(op, st)
      ensures exists q :: Writes(w, n, q, w.appender[op.id].from[j], st, NeverEnds(op.nodes[j], st))
      ensures forall q :: Writes(w, n, q, w.appender[op.id].from[j], st, true) ==> NeverEnds(op.nodes[j], st)
    {
      OperandRuns(op, j, st);
      var q := OperandWrites(w, n, p, j, st);
      forall q' | Writes(w, n, q', w.appender[op.id].from[j], st, true) ensures NeverEnds(op.nodes[j], st) {
        WritesOnce(w, n, q, q', w.appender[op.id].from[j], st, NeverEnds(op.nodes[j], st), true);
      }
    }
    AppenderHangs(op, st);
    assert Last(op, st) < |op.nodes| - 1 ==> op.nodes[|op.nodes| - 1].id !in Reached(op, st);
  }

  lemma ClosedParts(w: Wiring, n: Node)
    requires Closed(w, n)
    ensures Connected(w, n)
  {
  }

  lemma AppenderHangs(n: Node, st: Status)
    requires NonEmpty(n) && Appends(n)
    ensures NeverEnds(n, st) <==>
              Last(n, st) < |n.nodes| - 1 || exists j :: 0 <= j < |n.nodes| && NeverEnds(n.nodes[j], st)
  {
    if j :| 0 <= j < |n.nodes| && NeverEnds(n.nodes[j], st) {
      assert j <= Last(n, st) || Last(n, st) < |n.nodes| - 1;
    }
  }

  lemma OperandRuns(n: Node, j: nat, st: Status)
    requires WellFormed(n) && n.Operands? && j < |n.nodes|
    ensures n.nodes[j].id in Reached(n, st) <==> j <= Last(n, st)
  {
    assert n.nodes[j].id in Ids(n.nodes[j]) && n.nodes[j].id in Reached(n.nodes[j], st);
    ReachedElsewhere(n, j, n.nodes[j].id, st);
  }

  /** The pipe an appender reads for operand j is written by the process that writes that operand's output. */
  lemma OperandWrites(w: Wiring, n: Node, p: seq<nat>, j: nat, st: Status) returns (q: seq<nat>)
    requires Connected(w, n) && NonEmpty(n) && ValidPath(n, p) && Appends(At(n, p)) && j < |At(n, p).nodes|
    ensures NonEmpty(At(n, p)) && At(n, p).id in w.appender && j < |w.appender[At(n, p).id].from|
    ensures w.appender[At(n, p).id].from[j].PipeStream?
    ensures Writes(w, n, q, w.appender[At(n, p).id].from[j], st, NeverEnds(At(n, p).nodes[j], st))
  {
    hide NeverEnds;
    var op := At(n, p);
    AtFacts(n, p);
    ConnectedAt(w, n, p);
    Reading(w, op, j);
    var operand := op.nodes[j];
    WriterTap(w, operand);
    NeverEndingWriter(operand, st);
    ExtendPath(n, p, j);
    AtJoined(n, p + [j], OutputWriter(operand));
    q := p + [j] + OutputWriter(operand);
  }

  lemma WritesOnce(w: Wiring, n: Node, q: seq<nat>, q': seq<nat>, s: Stream, st: Status, hangs: bool, hangs': bool)
    requires Distinct(n) && Linear(w, n) && s.PipeStream?
    requires Writes(w, n, q, s, st, hangs) && Writes(w, n, q', s, st, hangs')
    ensures hangs == hangs'
  {
    hide NeverEnds, Linear, Distinct;
    OneUser(w, n, q, q', Tap(s, WriteEnd));
  }

  // ---- what this means for the run

  /** A fed executable that the evaluator reaches: until it exits without having seen the end of its
      input the run does not end, and once started it is waited for. */
  lemma FedKeepsWaiting(engine: Engine, p: seq<nat>)
    requires engine.Valid() && ValidPath(engine.world.tree, p) && At(engine.world.tree, p).Executable?
    requires NonEmpty(engine.world.tree) && Fed(engine.world.tree, p, engine.status, false)
    requires At(engine.world.tree, p).id in Reached(engine.world.tree, engine.status)
    requires At(engine.world.tree, p).id !in engine.reaped
    ensures engine.toWait > 0
    ensures At(engine.world.tree, p).id in engine.result ==>
              At(engine.world.tree, p).id in Live(engine.world.tree, engine.reaped, engine.status)
  {
    hide Fed, Reached, State, Consistent, Wired, Linear, FreshPids, PipesOk, TableOk, PidsOk, At, ValidPath;
    var n := engine.world.tree;
    AtFacts(n, p);
    LiveIsStarted(n, engine.reaped, engine.status, engine.result);
    engine.AtMostAllReaped();
    if engine.toWait == 0 {
      RunOutcome(engine.world, engine.Book(), engine.status, engine.result);
      assert false;
    }
  }

  /** In (false && a) | cat, cat is fed. */
  lemma GroupFeedsCat(n: Node, st: Status, first: seq<string>, second: seq<string>, third: seq<string>)
    requires n == GroupInPipe(first, second, third) && st(2) == 256
    ensures ValidPath(n, [1]) && At(n, [1]) == n.nodes[1] && NonEmpty(n) && Fed(n, [1], st, false)
    ensures n.nodes[1].id in Reached(n, st)
  {
    assert [1][1..] == [];
    GroupFails(n.nodes[0], st);
    NoStop(n, 0, st);
    assert n.nodes[1].id in Reached(n.nodes[1], st);
  }
}
