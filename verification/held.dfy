/** Which pipe ends the parent holds in each reachable state, and which appenders write pipes. */
module HeldEnds {
  import opened Nodes
  import opened Semantics
  import opened Streams
  import opened Wire
  import opened Accounting
  import opened Execution

  // ---- the started nodes of a reachable state

  /** With a node, the operands that start at once have been started; below a node that has not been
      started nothing has. */
  ghost predicate StartedSoFar(n: Node, keys: set<nat>) {
    if n.id in keys then
      n.Operands? ==>
        && |n.nodes| > 0 && n.nodes[0].id in keys
        && (n.kind == Pipe ==> forall i :: 0 <= i < |n.nodes| ==> n.nodes[i].id in keys)
        && forall i :: 0 <= i < |n.nodes| ==> StartedSoFar(n.nodes[i], keys)
    else Ids(n) !! keys
  }

  lemma {:induction false} StateStarted(n: Node, e: set<nat>, st: Status, r: Results)
    requires NonEmpty(n) && State(n, e, st, r)
    ensures StartedSoFar(n, r.Keys)
  {
    if n.Operands? {
      assert Begun(n, 0, e, st);
      forall i | 0 <= i < |n.nodes| ensures StartedSoFar(n.nodes[i], r.Keys) {
        assert n.nodes[i].id in Ids(n.nodes[i]);
        if Begun(n, i, e, st) {
          StateStarted(n.nodes[i], e, st, r);
        }
      }
    }
  }

  lemma {:induction false} StartedAt(n: Node, p: seq<nat>, keys: set<nat>)
    requires StartedSoFar(n, keys) && ValidPath(n, p)
    ensures StartedSoFar(At(n, p), keys)
    ensures At(n, p).id in keys ==> n.id in keys
  {
    AtFacts(n, p);
    if p != [] {
      AtFacts(n.nodes[p[0]], p[1..]);
      if n.id in keys {
        StartedAt(n.nodes[p[0]], p[1..], keys);
      }
    }
  }

  // ---- who uses the ends of a pipe

  lemma {:induction false} UserFound<T>(n: Node, f: Node -> multiset<T>, keys: set<nat>, t: T) returns (p: seq<nat>)
    requires t in Gather(n, Among(f, keys))
    ensures ValidPath(n, p) && At(n, p).id in keys && t in f(At(n, p))
    decreases n, 1
  {
    if n.id in keys && t in f(n) {
      p := [];
    } else {
      var i, q := UserAmong(n.nodes, f, keys, t);
      p := [i] + q;
      assert p[1..] == q;
    }
  }

  lemma {:induction false} UserAmong<T>(nodes: seq<Node>, f: Node -> multiset<T>, keys: set<nat>, t: T)
    returns (i: nat, q: seq<nat>)
    requires t in GatherAll(nodes, Among(f, keys))
    ensures i < |nodes| && ValidPath(nodes[i], q) && At(nodes[i], q).id in keys && t in f(At(nodes[i], q))
    decreases nodes, 0
  {
    if t in Gather(nodes[0], Among(f, keys)) {
      i := 0;
      q := UserFound(nodes[0], f, keys, t);
    } else {
      i, q := UserAmong(nodes[1..], f, keys, t);
      i := i + 1;
    }
  }

  lemma {:induction false} UserCounts<T>(n: Node, p: seq<nat>, f: Node -> multiset<T>, keys: set<nat>, t: T)
    requires ValidPath(n, p) && At(n, p).id in keys && t in f(At(n, p))
    ensures t in Gather(n, Among(f, keys))
  {
    if p != [] {
      UserCounts(n.nodes[p[0]], p[1..], f, keys, t);
      GatherSplit(n.nodes, p[0], Among(f, keys));
    }
  }

  /** With linear wiring no two processes use the same end of a pipe. */
  lemma OneUser(w: Wiring, n: Node, p: seq<nat>, q: seq<nat>, t: Tap)
    requires Distinct(n) && Linear(w, n) && ValidPath(n, p) && ValidPath(n, q) && t.stream.PipeStream?
    requires t in TapsOf(w, At(n, p)) && t in TapsOf(w, At(n, q))
    ensures p == q
  {
    if At(n, p).id != At(n, q).id {
      UserCounts(n, p, TapsFn(w), {At(n, p).id}, t);
      OwnEndsUntouched(w, n, q, {At(n, p).id}, t);
      assert false;
    }
    PathsUnique(n, p, q);
  }

  /** The process that writes a node's output. */
  ghost function OutputWriter(n: Node): seq<nat>
    requires NonEmpty(n)
  {
    if n.Operands? && n.kind == Pipe then [|n.nodes| - 1] + OutputWriter(n.nodes[|n.nodes| - 1]) else []
  }

  /** The process that reads a node's input. */
  ghost function InputReader(n: Node): seq<nat>
    requires NonEmpty(n)
  {
    if n.Operands? then [0] + InputReader(n.nodes[0]) else []
  }

  lemma {:induction false} ConnectedNonEmpty(w: Wiring, n: Node)
    requires Connected(w, n)
    ensures NonEmpty(n)
  {
    if n.Operands? {
      forall i | 0 <= i < |n.nodes| ensures NonEmpty(n.nodes[i]) {
        ConnectedNonEmpty(w, n.nodes[i]);
      }
    }
  }

  lemma WriterFacts(w: Wiring, n: Node, keys: set<nat>)
    requires Connected(w, n) && NonEmpty(n) && StartedSoFar(n, keys)
    ensures ValidPath(n, OutputWriter(n))
    ensures Tap(StdOut(w, n).value, WriteEnd) in TapsOf(w, At(n, OutputWriter(n)))
    ensures At(n, OutputWriter(n)).id in keys <==> n.id in keys
  {
    WriterTap(w, n);
    WriterStarted(n, keys);
  }

  lemma {:induction false} WriterTap(w: Wiring, n: Node)
    requires Connected(w, n) && NonEmpty(n)
    ensures ValidPath(n, OutputWriter(n))
    ensures Tap(StdOut(w, n).value, WriteEnd) in TapsOf(w, At(n, OutputWriter(n)))
  {
    if n.Operands? && n.kind == Pipe {
      var last := n.nodes[|n.nodes| - 1];
      assert OutputWriter(n)[1..] == OutputWriter(last);
      WriterTap(w, last);
    }
  }

  lemma {:induction false} WriterStarted(n: Node, keys: set<nat>)
    requires NonEmpty(n) && StartedSoFar(n, keys) && ValidPath(n, OutputWriter(n))
    ensures At(n, OutputWriter(n)).id in keys <==> n.id in keys
  {
    if n.Operands? && n.kind == Pipe {
      var last := n.nodes[|n.nodes| - 1];
      assert OutputWriter(n)[1..] == OutputWriter(last);
      assert Ids(last) <= Ids(n);
      if n.id !in keys {
        NothingStarted(last, keys);
      }
      WriterStarted(last, keys);
    }
  }

  lemma NothingStarted(n: Node, keys: set<nat>)
    requires Ids(n) !! keys
    ensures StartedSoFar(n, keys) && n.id !in keys
  {
    assert n.id in Ids(n);
  }

  lemma {:induction false} ReaderFacts(w: Wiring, n: Node, keys: set<nat>)
    requires Connected(w, n) && NonEmpty(n) && StartedSoFar(n, keys)
    ensures ValidPath(n, InputReader(n))
    ensures Tap(StdIn(w, n).value, ReadEnd) in TapsOf(w, At(n, InputReader(n)))
    ensures At(n, InputReader(n)).id in keys <==> n.id in keys
  {
    if n.Operands? {
      var first := n.nodes[0];
      assert InputReader(n)[1..] == InputReader(first);
      assert Ids(first) <= Ids(n);
      if n.id !in keys {
        NothingStarted(first, keys);
      }
      ReaderFacts(w, first, keys);
    }
  }

  /** A started process below n uses the end. */
  ghost predicate Used(w: Wiring, n: Node, keys: set<nat>, t: Tap) {
    exists p :: UsedAt(w, n, keys, t, p)
  }

  ghost predicate UsedAt(w: Wiring, n: Node, keys: set<nat>, t: Tap, p: seq<nat>) {
    ValidPath(n, p) && At(n, p).id in keys && t in TapsOf(w, At(n, p))
  }

  /** The end is what an operand would write that its started And, Or or Semicolon has not started. */
  ghost predicate Awaited(w: Wiring, n: Node, keys: set<nat>, t: Tap) {
    exists p, j: nat :: AwaitedAt(w, n, keys, t, p, j)
  }

  ghost predicate AwaitedAt(w: Wiring, n: Node, keys: set<nat>, t: Tap, p: seq<nat>, j: nat) {
    && ValidPath(n, p) && Appends(At(n, p)) && At(n, p).id in keys && At(n, p).id in w.appender
    && j < |At(n, p).nodes| && At(n, p).nodes[j].id !in keys
    && j < |w.appender[At(n, p).id].from| && t == Tap(w.appender[At(n, p).id].from[j], WriteEnd)
  }

  lemma Lifted(w: Wiring, n: Node, i: nat, keys: set<nat>, t: Tap)
    requires n.Operands? && i < |n.nodes|
    ensures Used(w, n.nodes[i], keys, t) ==> Used(w, n, keys, t)
    ensures Awaited(w, n.nodes[i], keys, t) ==> Awaited(w, n, keys, t)
  {
    if p :| UsedAt(w, n.nodes[i], keys, t, p) {
      assert ([i] + p)[1..] == p;
      assert UsedAt(w, n, keys, t, [i] + p);
    }
    if p, j: nat :| AwaitedAt(w, n.nodes[i], keys, t, p, j) {
      assert ([i] + p)[1..] == p;
      assert AwaitedAt(w, n, keys, t, [i] + p, j);
    }
  }

  function Opposite(t: Tap): Tap {
    Tap(t.stream, if t.end == ReadEnd then WriteEnd else ReadEnd)
  }

  /** An end that leads out of a node: its own input or output. */
  ghost predicate Outer(w: Wiring, n: Node, t: Tap)
    requires Connected(w, n)
  {
    t == Tap(StdIn(w, n).value, ReadEnd) || t == Tap(StdOut(w, n).value, WriteEnd)
  }

  /** Each pipe end a started process below n uses leads out of n, or its other end is used by a
      started process below n, or is awaited. */
  lemma {:induction false} Partner(w: Wiring, n: Node, p: seq<nat>, keys: set<nat>, t: Tap)
    requires Connected(w, n) && NonEmpty(n) && StartedSoFar(n, keys)
    requires UsedAt(w, n, keys, t, p) && t.stream.PipeStream?
    ensures Outer(w, n, t) || Used(w, n, keys, Opposite(t)) || Awaited(w, n, keys, Opposite(t))
    decreases n
  {
    hide Used, Awaited;
    StartedAt(n, p, keys);
    if n.Operands? && p == [] {
      OwnEnd(w, n, keys, t);
    } else if n.Operands? {
      var i, operand := p[0], n.nodes[p[0]];
      StartedAt(operand, p[1..], keys);
      Partner(w, operand, p[1..], keys, t);
      Lifted(w, n, i, keys, Opposite(t));
      if Outer(w, operand, t) {
        if n.kind == Pipe {
          Neighbour(w, n, i, keys, t);
        } else {
          assert Collected(w, n.nodes, w.appender[n.id].from, i);
          Reading(w, n, i);
          assert t.end == WriteEnd ==> UsedAt(w, n, keys, Opposite(t), []);
          UsedHere(w, n, keys, Opposite(t), []);
        }
      }
    }
  }

  lemma UsedHere(w: Wiring, n: Node, keys: set<nat>, t: Tap, p: seq<nat>)
    ensures UsedAt(w, n, keys, t, p) ==> Used(w, n, keys, t)
  {
  }

  /** The appender reads the output of each operand. */
  lemma Reading(w: Wiring, n: Node, j: nat)
    requires Connected(w, n) && Appends(n) && j < |n.nodes|
    ensures n.id in w.appender && j < |w.appender[n.id].from|
    ensures w.appender[n.id].from[j].PipeStream? && StdOut(w, n.nodes[j]) == Some(w.appender[n.id].from[j])
    ensures Tap(w.appender[n.id].from[j], ReadEnd) in TapsOf(w, n)
  {
    var a := w.appender[n.id];
    assert Collected(w, n.nodes, a.from, j);
    assert Taps(a.from, ReadEnd)[j] in multiset(Taps(a.from, ReadEnd));
  }

  /** An appender's pipe is written by the operand it was made for. */
  lemma OwnEnd(w: Wiring, n: Node, keys: set<nat>, t: Tap)
    requires Connected(w, n) && NonEmpty(n) && StartedSoFar(n, keys) && n.Operands? && n.id in keys
    requires t in TapsOf(w, n) && t.stream.PipeStream?
    ensures Outer(w, n, t) || Used(w, n, keys, Opposite(t)) || Awaited(w, n, keys, Opposite(t))
  {
    var a := w.appender[n.id];
    if t in multiset(Taps(a.from, ReadEnd)) {
      var j: nat :| j < |a.from| && Taps(a.from, ReadEnd)[j] == t;
      Reading(w, n, j);
      if n.nodes[j].id in keys {
        WriterFacts(w, n.nodes[j], keys);
        assert UsedAt(w, n.nodes[j], keys, Opposite(t), OutputWriter(n.nodes[j]));
        Lifted(w, n, j, keys, Opposite(t));
      } else {
        assert AwaitedAt(w, n, keys, Opposite(t), [], j);
      }
    }
  }

  /** Neighbours in a Pipe share a pipe. */
  lemma Neighbour(w: Wiring, n: Node, i: nat, keys: set<nat>, t: Tap)
    requires Connected(w, n) && NonEmpty(n) && StartedSoFar(n, keys) && n.Operands? && n.kind == Pipe && n.id in keys
    requires i < |n.nodes| && Outer(w, n.nodes[i], t) && t.stream.PipeStream?
    ensures Outer(w, n, t) || Used(w, n, keys, Opposite(t))
  {
    if t.end == ReadEnd && i > 0 {
      assert Linked(w, n.nodes, i - 1);
      WriterFacts(w, n.nodes[i - 1], keys);
      assert UsedAt(w, n.nodes[i - 1], keys, Opposite(t), OutputWriter(n.nodes[i - 1]));
      Lifted(w, n, i - 1, keys, Opposite(t));
    }
    if t.end == WriteEnd && i < |n.nodes| - 1 {
      assert Linked(w, n.nodes, i);
      ReaderFacts(w, n.nodes[i + 1], keys);
      assert UsedAt(w, n.nodes[i + 1], keys, Opposite(t), InputReader(n.nodes[i + 1]));
      Lifted(w, n, i + 1, keys, Opposite(t));
    }
  }

  // ---- what the parent holds

  /** The root does not lead into a pipe. */
  ghost predicate Closed(w: Wiring, n: Node) {
    Connected(w, n) && !StdIn(w, n).value.PipeStream? && !StdOut(w, n).value.PipeStream?
  }

  lemma HeldIsAwaited(e: World, b: Books, t: Tap)
    requires GoodWorld(e) && PipesOk(e, b) && Closed(e.wiring, e.tree) && StartedSoFar(e.tree, b.keys)
    requires t in b.openEnds
    ensures Awaited(e.wiring, e.tree, b.keys, t)
  {
    hide Gather, Among, StartedSoFar, Connected, Linear, Wired, Used, Awaited, FreshPids, Distinct, NonEmpty;
    var started := Gather(e.tree, Among(TapsFn(e.wiring), b.keys));
    assert t == Opposite(Opposite(t));
    assert Touches(started, t.stream.pipe);
    assert Opposite(t) == Tap(PipeStream(t.stream.pipe), Opposite(t).end);
    var p := UserFound(e.tree, TapsFn(e.wiring), b.keys, Opposite(t));
    Partner(e.wiring, e.tree, p, b.keys, Opposite(t));
    NotUsed(e, b, t);
  }

  lemma NotUsed(e: World, b: Books, t: Tap)
    requires t !in Gather(e.tree, Among(TapsFn(e.wiring), b.keys))
    ensures !Used(e.wiring, e.tree, b.keys, t)
  {
    forall p ensures !UsedAt(e.wiring, e.tree, b.keys, t, p) {
      if UsedAt(e.wiring, e.tree, b.keys, t, p) {
        UserCounts(e.tree, p, TapsFn(e.wiring), b.keys, t);
        assert false;
      }
    }
  }

  lemma {:induction false} ConnectedAt(w: Wiring, n: Node, p: seq<nat>)
    requires Connected(w, n) && ValidPath(n, p)
    ensures Connected(w, At(n, p))
  {
    if p != [] {
      ConnectedAt(w, n.nodes[p[0]], p[1..]);
    }
  }

  lemma {:induction false} AtJoined(n: Node, p: seq<nat>, q: seq<nat>)
    requires ValidPath(n, p) && ValidPath(At(n, p), q)
    ensures ValidPath(n, p + q) && At(n, p + q) == At(At(n, p), q)
  {
    if p == [] {
      assert p + q == q;
    } else {
      AtJoined(n.nodes[p[0]], p[1..], q);
      assert (p + q)[1..] == p[1..] + q;
    }
  }

  lemma AwaitedIsHeld(e: World, b: Books, t: Tap, p: seq<nat>, j: nat)
    requires GoodWorld(e) && PipesOk(e, b) && Closed(e.wiring, e.tree) && StartedSoFar(e.tree, b.keys)
    requires AwaitedAt(e.wiring, e.tree, b.keys, t, p, j)
    ensures t in b.openEnds
  {
    hide Gather, Among, StartedSoFar, Connected, Linear, Wired, FreshPids;
    var op := At(e.tree, p);
    ConnectedAt(e.wiring, e.tree, p);
    AtFacts(e.tree, p);
    Reading(e.wiring, op, j);
    UserCounts(e.tree, p, TapsFn(e.wiring), b.keys, Opposite(t));
    TapTouches(Gather(e.tree, Among(TapsFn(e.wiring), b.keys)), Opposite(t));
    ExtendPath(e.tree, p, j);
    ConnectedAt(e.wiring, e.tree, p + [j]);
    StartedAt(e.tree, p + [j], b.keys);
    AtFacts(e.tree, p + [j]);
    var q := OutputWriter(op.nodes[j]);
    WriterFacts(e.wiring, op.nodes[j], b.keys);
    AtJoined(e.tree, p + [j], q);
    OwnEndsUntouched(e.wiring, e.tree, p + [j] + q, b.keys, t);
  }

  /** In every reachable state the parent holds exactly the write ends of the operands that a
      started And, Or or Semicolon has not started. */
  lemma HeldExactly(e: World, b: Books)
    requires GoodWorld(e) && PipesOk(e, b) && Closed(e.wiring, e.tree) && StartedSoFar(e.tree, b.keys)
    ensures forall t :: t in b.openEnds <==> Awaited(e.wiring, e.tree, b.keys, t)
  {
    hide GoodWorld, PipesOk, Closed, StartedSoFar, AwaitedAt;
    forall t ensures t in b.openEnds <==> Awaited(e.wiring, e.tree, b.keys, t) {
      if t in b.openEnds {
        HeldIsAwaited(e, b, t);
      }
      if p, j: nat :| AwaitedAt(e.wiring, e.tree, b.keys, t, p, j) {
        AwaitedIsHeld(e, b, t, p, j);
      }
    }
  }

  /** The same at every head of the waiting loop. */
  lemma HeldInRun(engine: Engine)
    requires engine.Valid() && Closed(engine.world.wiring, engine.world.tree)
    ensures forall t :: t in engine.openEnds <==>
              Awaited(engine.world.wiring, engine.world.tree, engine.result.Keys, t)
  {
    hide Awaited, Closed, Wired, Linear, FreshPids, Distinct, PipesOk, TableOk, ChildrenOk, PidsOk, WaitOk;
    StateStarted(engine.world.tree, engine.reaped, engine.status, engine.result);
    HeldExactly(engine.world, engine.Book());
  }

  /** The end is what an operand would have written that the evaluator never reaches although it
      reaches its operator. */
  ghost predicate SkippedAt(w: Wiring, n: Node, st: Status, t: Tap, p: seq<nat>, j: nat)
    requires NonEmpty(n)
  {
    && ValidPath(n, p) && Appends(At(n, p)) && NonEmpty(At(n, p)) && At(n, p).id in Reached(n, st)
    && Last(At(n, p), st) < j < |At(n, p).nodes|
    && At(n, p).id in w.appender && j < |w.appender[At(n, p).id].from|
    && t == Tap(w.appender[At(n, p).id].from[j], WriteEnd)
  }

  lemma {:induction false} ReachedOperand(n: Node, p: seq<nat>, j: nat, st: Status)
    requires WellFormed(n) && ValidPath(n, p) && At(n, p).Operands? && j < |At(n, p).nodes|
    requires At(n, p).id in Reached(n, st)
    ensures NonEmpty(At(n, p)) && (At(n, p).nodes[j].id in Reached(n, st) <==> j <= Last(At(n, p), st))
  {
    AtFacts(n, p);
    var op := At(n, p);
    assert op.nodes[j].id in Ids(op.nodes[j]) && op.nodes[j].id in Reached(op.nodes[j], st);
    if p == [] {
      ReachedElsewhere(n, j, n.nodes[j].id, st);
    } else {
      AtFacts(n.nodes[p[0]], p[1..]);
      ReachedElsewhere(n, p[0], op.id, st);
      ReachedOperand(n.nodes[p[0]], p[1..], j, st);
      ReachedElsewhere(n, p[0], op.nodes[j].id, st);
    }
  }

  /** What is still held when nothing is left to wait for. */
  lemma HeldAtEnd(engine: Engine, t: Tap)
    requires engine.Valid() && engine.toWait == 0 && Closed(engine.world.wiring, engine.world.tree)
    ensures NonEmpty(engine.world.tree)
    ensures t in engine.openEnds <==>
              exists p, j: nat :: SkippedAt(engine.world.wiring, engine.world.tree, engine.status, t, p, j)
  {
    hide Closed, Wired, Linear, FreshPids, Distinct, PipesOk, TableOk, PidsOk, State, Reached, At, ValidPath;
    var w, n, st := engine.world.wiring, engine.world.tree, engine.status;
    HeldInRun(engine);
    RunOutcome(engine.world, engine.Book(), st, engine.result);
    if p, j: nat :| AwaitedAt(w, n, engine.result.Keys, t, p, j) {
      ReachedOperand(n, p, j, st);
      assert SkippedAt(w, n, st, t, p, j);
    }
    if p, j: nat :| SkippedAt(w, n, st, t, p, j) {
      ReachedOperand(n, p, j, st);
      assert AwaitedAt(w, n, engine.result.Keys, t, p, j);
    }
  }

  /** The end is the write end of a pipe that the appender of n reads. */
  ghost predicate LeftInTable(w: Wiring, n: Node, t: Tap) {
    && n.Operands? && n.kind != Pipe && n.id in w.appender
    && t.end == WriteEnd && t.stream in w.appender[n.id].from
  }

  /** The table of appender descriptors holds exactly the write ends of the pipes that the appenders of
      the started operators read. */
  lemma TableEntries(e: World, b: Books, t: Tap)
    requires TableOk(e, b)
    ensures t in b.entries <==>
              exists p :: ValidPath(e.tree, p) && At(e.tree, p).id in b.keys && LeftInTable(e.wiring, At(e.tree, p), t)
  {
    hide LeftInTable, Gather;
    assert t in b.entries <==> t in multiset(b.entries);
    if t in b.entries {
      var p := UserFound(e.tree, TableFn(e.wiring), b.keys, t);
      TableMeans(e.wiring, At(e.tree, p), t);
    }
    if p :| ValidPath(e.tree, p) && At(e.tree, p).id in b.keys && LeftInTable(e.wiring, At(e.tree, p), t) {
      TableMeans(e.wiring, At(e.tree, p), t);
      UserCounts(e.tree, p, TableFn(e.wiring), b.keys, t);
    }
  }

  lemma TableMeans(w: Wiring, n: Node, t: Tap)
    ensures t in TableFn(w)(n) <==> LeftInTable(w, n, t)
  {
    if LeftInTable(w, n, t) {
      var from := w.appender[n.id].from;
      var i :| 0 <= i < |from| && from[i] == t.stream;
      assert Taps(from, WriteEnd)[i] == t;
    }
  }

  /** Every pipe is opened at most once in a run, and only when a process that uses it has been started. */
  lemma OpenedAtMostOnce(engine: Engine, pipe: nat)
    requires engine.Valid()
    ensures engine.pipeCalls[pipe] <= 1
    ensures engine.pipeCalls[pipe] == 1 <==>
              exists p, t: Tap :: ValidPath(engine.world.tree, p) && At(engine.world.tree, p).id in engine.result
                && t in TapsOf(engine.world.wiring, At(engine.world.tree, p)) && t.stream == PipeStream(pipe)
  {
    hide TableOk, ChildrenOk, PidsOk, WaitOk, State, Consistent, Gather, Wired, Linear, FreshPids, TapsOf;
    var tree, w, keys := engine.world.tree, engine.world.wiring, engine.result.Keys;
    var taps := Gather(tree, Among(TapsFn(w), keys));
    TouchedPipes(taps, pipe);
    if engine.pipeCalls[pipe] == 1 {
      var t: Tap :| t in taps && t.stream == PipeStream(pipe);
      var p := UserFound(tree, TapsFn(w), keys, t);
    }
    if p, t: Tap :| ValidPath(tree, p) && At(tree, p).id in engine.result
                    && t in TapsOf(w, At(tree, p)) && t.stream == PipeStream(pipe) {
      UserCounts(tree, p, TapsFn(w), keys, t);
      TapTouches(taps, t);
    }
  }

  // ---- appenders that write pipes

  /** Some step of the path goes to an operand of an And, Or or Semicolon, or to an operand of a Pipe
      that is not its last. */
  ghost predicate LeadsIntoPipe(n: Node, p: seq<nat>)
    requires ValidPath(n, p)
  {
    p != [] && (n.kind != Pipe || p[0] < |n.nodes| - 1 || LeadsIntoPipe(n.nodes[p[0]], p[1..]))
  }

  /** A node's output is a pipe exactly if the root's is, or a step of the path to it leads into one. */
  lemma {:induction false} PipedOutput(w: Wiring, n: Node, p: seq<nat>)
    requires Connected(w, n) && ValidPath(n, p)
    ensures Connected(w, At(n, p))
    ensures StdOut(w, At(n, p)).value.PipeStream? <==> StdOut(w, n).value.PipeStream? || LeadsIntoPipe(n, p)
  {
    if p != [] {
      var i := p[0];
      PipedOutput(w, n.nodes[i], p[1..]);
      if n.kind != Pipe {
        assert Collected(w, n.nodes, w.appender[n.id].from, i);
      } else if i < |n.nodes| - 1 {
        assert Linked(w, n.nodes, i);
      }
    }
  }

  /** Which appenders close their output twice: the one of the operator at p does exactly if the path
      leads into a pipe. */
  lemma PipedAppender(w: Wiring, n: Node, p: seq<nat>)
    requires Closed(w, n) && ValidPath(n, p) && Appends(At(n, p))
    ensures At(n, p).id in w.appender && (w.appender[At(n, p).id].to.PipeStream? <==> LeadsIntoPipe(n, p))
    ensures |PipedOutputFn(w)(At(n, p))| == if LeadsIntoPipe(n, p) then 1 else 0
  {
    PipedOutput(w, n, p);
  }

  /** The tree of (a && b) | c. */
  function GroupInPipe(a: seq<string>, b: seq<string>, c: seq<string>): Node {
    Operands(0, Pipe, [Operands(1, And, [Executable(2, a), Executable(3, b)]), Executable(4, c)])
  }

  lemma {:induction false} NoAppenders(nodes: seq<Node>, w: Wiring, keys: set<nat>)
    requires forall i :: 0 <= i < |nodes| ==> nodes[i].Executable?
    ensures GatherAll(nodes, Among(PipedOutputFn(w), keys)) == multiset{}
  {
    if nodes != [] {
      NoAppenders(nodes[1..], w, keys);
    }
  }

  /** Running (a && b) | c, one close fails as soon as the root has been started. */
  lemma DoubleClose(e: World, b: Books, first: seq<string>, second: seq<string>, third: seq<string>)
    requires e.tree == GroupInPipe(first, second, third) && Closed(e.wiring, e.tree)
    requires PipesOk(e, b) && StartedSoFar(e.tree, b.keys) && e.tree.id in b.keys
    ensures b.failedCloses == 1
  {
    hide Closed, Connected, PipesAccounted, OpenedOnce, Gather, GatherAll;
    assert [0][1..] == [] && At(e.tree, [0]) == e.tree.nodes[0];
    PipedAppender(e.wiring, e.tree, [0]);
    OnlyTheGroup(e.tree, e.wiring, b.keys);
  }

  /** In a Pipe of a group of commands and a command, only the group has an appender. */
  lemma OnlyTheGroup(n: Node, w: Wiring, keys: set<nat>)
    requires n.Operands? && n.kind == Pipe && |n.nodes| == 2 && n.nodes[1].Executable?
    requires n.nodes[0].Operands? && n.nodes[0].id in keys
    requires forall i :: 0 <= i < |n.nodes[0].nodes| ==> n.nodes[0].nodes[i].Executable?
    ensures Gather(n, Among(PipedOutputFn(w), keys)) == PipedOutputFn(w)(n.nodes[0])
  {
    var f, group := Among(PipedOutputFn(w), keys), n.nodes[0];
    assert f(n) == multiset{} && f(group) == PipedOutputFn(w)(group);
    NoAppenders(group.nodes, w, keys);
    NoAppenders(n.nodes[1..], w, keys);
    hide Among, PipedOutputFn;
    assert Gather(group, f) == f(group);
    assert GatherAll(n.nodes, f) == Gather(group, f) + GatherAll(n.nodes[1..], f);
  }

  /** A group whose first command fails. */
  lemma GroupFails(group: Node, st: Status)
    requires group.Operands? && group.kind == And && |group.nodes| == 2 && group.nodes[0].Executable?
    requires NonEmpty(group) && st(group.nodes[0].id) == 256
    ensures Last(group, st) == 0 && Eval(group, st) == 256
  {
    assert Eval(group.nodes[0], st) == 256;
  }

  /** (false && a) | cat: once the first command has failed, the parent still holds the write end of
      the second's pipe, on whose end of file the group's appender waits, and with it `cat`. */
  lemma GroupThatHangs(e: World, b: Books, st: Status, r: Results, first: seq<string>, second: seq<string>,
      third: seq<string>)
    requires e.tree == GroupInPipe(first, second, third) && Closed(e.wiring, e.tree)
    requires GoodWorld(e) && PipesOk(e, b) && b.keys == r.Keys && st(2) == 256
    requires State(e.tree, {2}, st, r)
    ensures 1 in r && r[1] == Some(256) && 4 in Live(e.tree, {2}, st)
    ensures 1 in e.wiring.appender && |e.wiring.appender[1].from| == 2
    ensures Tap(e.wiring.appender[1].from[1], WriteEnd) in b.openEnds
  {
    hide PipesOk, Wired, Linear, FreshPids, Connected, Eval, LastFrom;
    var n, group := e.tree, e.tree.nodes[0];
    assert [0][1..] == [] && At(n, [0]) == group;
    GroupStopped(n, group, st, r);
    StateStarted(n, {2}, st, r);
    ConnectedAt(e.wiring, n, [0]);
    Reading(e.wiring, group, 1);
    assert |e.wiring.appender[1].from| == 2 by { AppendersRead(e.wiring, group); }
    AwaitedIsHeld(e, b, Tap(e.wiring.appender[1].from[1], WriteEnd), [0], 1);
  }

  lemma AppendersRead(w: Wiring, n: Node)
    requires Connected(w, n) && Appends(n)
    ensures n.id in w.appender && |w.appender[n.id].from| == |n.nodes|
  {
  }

  lemma GroupStopped(n: Node, group: Node, st: Status, r: Results)
    requires n.Operands? && n.kind == Pipe && |n.nodes| == 2 && n.nodes[0] == group && n.nodes[1].Executable?
    requires group.Operands? && group.kind == And && |group.nodes| == 2 && group.nodes[0].Executable?
    requires NonEmpty(n) && st(group.nodes[0].id) == 256 && n.nodes[1].id != group.nodes[0].id
    requires State(n, {group.nodes[0].id}, st, r)
    ensures group.id in r && r[group.id] == Some(256) && group.nodes[1].id !in r
    ensures n.nodes[1].id in Live(n, {group.nodes[0].id}, st)
  {
    var e := {group.nodes[0].id};
    assert Begun(n, 0, e, st) && Begun(n, 1, e, st);
    GroupFails(group, st);
    hide Eval, LastFrom;
    assert !Begun(group, 1, e, st);
    assert group.nodes[1].id in Ids(group.nodes[1]);
    assert Done(group, e, st);
    assert n.nodes[1].id in Live(n.nodes[1], e, st);
  }
}
