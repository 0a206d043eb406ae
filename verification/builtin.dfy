/** The wiring methods of src/parse/builtin.c. */
module Builtin {
  import opened Nodes
  import opened Streams
  import opened Wire

  /** Nothing below n has streams yet. */
  ghost predicate Blank(w: Wiring, n: Node) {
    forall x :: x in Ids(n) ==> x !in w.stdIn && x !in w.stdOut
  }

  /** Nothing below n has streams yet, except that n itself may have the ones it is to get. */
  ghost predicate Preset(w: Wiring, n: Node, input: Stream, output: Stream) {
    && (forall x :: x in Ids(n) && x != n.id ==> x !in w.stdIn && x !in w.stdOut)
    && (n.id in w.stdIn ==> w.stdIn[n.id] == input)
    && (n.id in w.stdOut ==> w.stdOut[n.id] == output)
  }

  ghost function Below(n: Node): set<nat> {
    Ids(n) - {n.id}
  }

  lemma BlankOperands(n: Node, w: Wiring, input: Stream, output: Stream)
    requires WellFormed(n) && n.Operands? && Preset(w, n, input, output)
    ensures forall i :: 0 <= i < |n.nodes| ==> Blank(w, n.nodes[i])
  {
    OperandsApart(n);
  }

  lemma BlankKept(n: Node, ids: set<nat>, w: Wiring, v: Wiring)
    requires Blank(w, n) && AgreeOff(ids, w, v) && ids !! Ids(n)
    ensures Blank(v, n)
  {
  }

  lemma BlankIsPreset(n: Node, w: Wiring, input: Stream, output: Stream)
    requires Blank(w, n)
    ensures Preset(w, n, input, output)
    ensures n.id !in w.stdIn && n.id !in w.stdOut
  {
    assert n.id in Ids(n);
  }

  lemma AgreeTrans(a: set<nat>, b: set<nat>, c: set<nat>, u: Wiring, v: Wiring, w: Wiring)
    requires AgreeOff(a, u, v) && AgreeOff(b, v, w) && a <= c && b <= c
    ensures AgreeOff(c, u, w)
  {
  }

  /** All operands but those wired so far are blank. */
  ghost predicate RestBlank(w: Wiring, nodes: seq<Node>, j: nat) {
    forall i :: j <= i < |nodes| ==> Blank(w, nodes[i])
  }

  lemma RestBlankNext(w: Wiring, v: Wiring, n: Node, j: nat)
    requires Distinct(n) && n.Operands? && j < |n.nodes| && RestBlank(w, n.nodes, j) && AgreeOff(Ids(n.nodes[j]), w, v)
    ensures RestBlank(v, n.nodes, j + 1)
  {
    OperandsApart(n);
    forall i | j + 1 <= i < |n.nodes| ensures Blank(v, n.nodes[i]) {
      BlankKept(n.nodes[i], Ids(n.nodes[j]), w, v);
    }
  }

  lemma OperandWirable(n: Node, j: nat)
    requires WellFormed(n) && WidePipes(n) && n.Operands? && j < |n.nodes|
    ensures WellFormed(n.nodes[j]) && WidePipes(n.nodes[j]) && Ids(n.nodes[j]) <= Below(n)
    ensures forall i :: 0 <= i < |n.nodes| ==> NonEmpty(n.nodes[i])
    ensures forall i :: 0 <= i < j ==> Ids(n.nodes[j]) !! Ids(n.nodes[i])
  {
    OperandsApart(n);
  }

  lemma WholePipe(w: Wiring, n: Node, input: Stream, output: Stream, first: nat, pipes: nat)
    requires WellFormed(n) && n.Operands? && n.kind == Pipe && |n.nodes| >= 2
    requires StdIn(w, n) == Some(input) && StdOut(w, n) == Some(output)
    requires PipePart(w, n.nodes, |n.nodes|, input, output, first, first + |n.nodes| - 1, pipes)
    ensures Connected(w, n) && pipes == first + PipeCount(n) && Conserved(w, n, input, output, first, pipes)
  {
    hide GatherAll, Gather, TapsFn, PipeTaps, StdinTaps, Ids, Distinct, NonEmpty, Connected;
    hide PipeCount, PipeCountAll, StdinCount, StdinCountAll, Linked;
    assert n.nodes[..|n.nodes|] == n.nodes;
    PipeIsNoProcess(w, n);
    PipeTapsJoin(first, first + |n.nodes| - 1, pipes);
    Associative(multiset{Tap(input, ReadEnd), Tap(output, WriteEnd)}, PipeTaps(first, first + |n.nodes| - 1),
                PipeTaps(first + |n.nodes| - 1, pipes));
    PipeConnected(w, n);
  }

  /** Only the operands of a Pipe use streams. */
  lemma PipeIsNoProcess(w: Wiring, n: Node)
    requires NonEmpty(n) && n.Operands? && n.kind == Pipe
    ensures Gather(n, TapsFn(w)) == GatherAll(n.nodes, TapsFn(w))
    ensures PipeCount(n) == |n.nodes| - 1 + PipeCountAll(n.nodes)
    ensures StdinCount(n) == StdinCountAll(n.nodes)
  {
    hide GatherAll, PipeCountAll, StdinCountAll;
    assert TapsFn(w)(n) == multiset{};
  }

  lemma PipeConnected(w: Wiring, n: Node)
    requires n.Operands? && n.kind == Pipe && |n.nodes| > 0
    requires StdIn(w, n).Some? && StdOut(w, n).Some?
    requires (forall i :: 0 <= i < |n.nodes| ==> Connected(w, n.nodes[i])) && Chained(w, n.nodes)
    requires StdIn(w, n.nodes[0]) == StdIn(w, n) && StdOut(w, n.nodes[|n.nodes| - 1]) == StdOut(w, n)
    ensures Connected(w, n)
  {
    hide Chained, StdIn, StdOut;
  }

  lemma WholeAppend(w: Wiring, v: Wiring, n: Node, input: Stream, output: Stream, first: nat, pipes: nat, a: Appender)
    requires WellFormed(n) && Appends(n)
    requires StdIn(w, n) == Some(input) && StdOut(w, n) == Some(output)
    requires AppendPart(w, n.nodes, |n.nodes|, a.from, input, first, pipes) && a.to == output
    requires v == w.(appender := w.appender[n.id := a])
    ensures Connected(v, n) && pipes == first + PipeCount(n) && Conserved(v, n, input, output, first, pipes)
  {
    hide Conserved, PipeTaps, StdinTaps;
    OperandsApart(n);
    assert n.nodes[..|n.nodes|] == n.nodes;
    forall i | 0 <= i < |n.nodes| ensures Connected(v, n.nodes[i]) {
      ConnectedElsewhere(n.nodes[i], {n.id}, w, v);
    }
    forall i: nat | i < |n.nodes| ensures Collected(v, n.nodes, a.from, i) {
      assert Collected(w, n.nodes, a.from, i);
    }
    WholeAppendTaps(w, v, n, input, output, first, pipes, a);
  }

  lemma AgreeOffAppender(w: Wiring, v: Wiring, x: nat)
    requires x in v.appender && v == w.(appender := w.appender[x := v.appender[x]])
    ensures AgreeOff({x}, w, v)
  {
  }

  lemma WholeAppendTaps(w: Wiring, v: Wiring, n: Node, input: Stream, output: Stream, first: nat, pipes: nat,
      a: Appender)
    requires WellFormed(n) && Appends(n)
    requires AppendPart(w, n.nodes, |n.nodes|, a.from, input, first, pipes) && a.to == output
    requires v == w.(appender := w.appender[n.id := a])
    ensures Conserved(v, n, input, output, first, pipes)
  {
    hide PipeTaps, StdinTaps, Connected, Collected, AgreeOff, Ids;
    OperandsApart(n);
    assert n.nodes[..|n.nodes|] == n.nodes;
    assert AgreeOff({n.id}, w, v) by { AgreeOffAppender(w, v, n.id); }
    TapsElsewhere(n.nodes, {n.id}, w, v);
    AppendedTaps(GatherAll(n.nodes, TapsFn(v)), multiset(Taps(a.from, ReadEnd)), Tap(input, ReadEnd),
                 Tap(output, WriteEnd),
                 PipeTaps(first, pipes), StdinTaps(StdinCount(n)));
  }

  lemma AppendedTaps<T>(g: multiset<T>, r: multiset<T>, i: T, o: T, p: multiset<T>, s: multiset<T>)
    requires g + r == multiset{i} + p + s
    ensures (r + multiset{o}) + g == multiset{i, o} + p + s
  {
    assert (r + multiset{o}) + g == (g + r) + multiset{o};
  }

  // ---- steps of the wiring methods

  /** node->std_in and node->std_out have been set where they were NULL. */
  lemma StreamsSet(n: Node, w: Wiring, v: Wiring, input: Stream, output: Stream)
    requires WellFormed(n) && Preset(w, n, input, output)
    requires v.stdIn == (if n.id in w.stdIn then w.stdIn else w.stdIn[n.id := input])
    requires v.stdOut == (if n.id in w.stdOut then w.stdOut else w.stdOut[n.id := output])
    requires v.appender == w.appender
    ensures AgreeOff(Ids(n), w, v) && StdIn(v, n) == Some(input) && StdOut(v, n) == Some(output)
    ensures n.Operands? ==> RestBlank(v, n.nodes, 0)
  {
    assert n.id in Ids(n);
    if n.Operands? {
      BlankOperands(n, w, input, output);
      OperandsApart(n);
      forall i | 0 <= i < |n.nodes| ensures Blank(v, n.nodes[i]) {
        assert Blank(w, n.nodes[i]);
      }
    }
  }

  lemma ExecutableConserved(w: Wiring, n: Node, input: Stream, output: Stream, a: nat)
    requires n.Executable? && StdIn(w, n) == Some(input) && StdOut(w, n) == Some(output)
    ensures Connected(w, n) && PipeCount(n) == 0 && Conserved(w, n, input, output, a, a)
  {
    assert StdinTaps(0) == multiset{};
  }

  lemma ReadyBlank(n: Node, w: Wiring, j: nat, input: Stream, output: Stream)
    requires n.Operands? && j < |n.nodes| && RestBlank(w, n.nodes, j)
    ensures Preset(w, n.nodes[j], input, output)
  {
    BlankIsPreset(n.nodes[j], w, input, output);
  }

  lemma Agreed(n: Node, j: nat, u: Wiring, v: Wiring, w: Wiring)
    requires Distinct(n) && n.Operands? && j < |n.nodes|
    requires (u == v || AgreeOff(Below(n), u, v)) && AgreeOff(Ids(n.nodes[j]), v, w)
    ensures AgreeOff(Below(n), u, w)
  {
    OperandsApart(n);
  }

  lemma AgreeBelow(n: Node, u: Wiring, v: Wiring, w: Wiring)
    requires AgreeOff(Ids(n), u, v) && AgreeOff(Below(n), v, w)
    ensures AgreeOff(Ids(n), u, w)
  {
    AgreeTrans(Ids(n), Below(n), Ids(n), u, v, w);
  }

  lemma OwnStreamsKept(n: Node, w: Wiring, v: Wiring)
    requires AgreeOff(Below(n), w, v)
    ensures StdIn(v, n) == StdIn(w, n) && StdOut(v, n) == StdOut(w, n)
  {
  }

  lemma AtLeastOne(n: Node)
    requires WellFormed(n) && n.Operands?
    ensures |n.nodes| > 0
  {
  }

  /** The first operand has been given the operator's input; the others are blank. */
  ghost predicate Waiting(w: Wiring, nodes: seq<Node>, j: nat, input: Stream) {
    if j > 0 || nodes == [] then RestBlank(w, nodes, j)
    else RestBlank(w, nodes, 1) && (forall o :: Preset(w, nodes[0], input, o)) && StdIn(w, nodes[0]) == Some(input)
  }

  lemma FirstPreset(n: Node, w: Wiring, v: Wiring, input: Stream)
    requires WellFormed(n) && n.Operands? && RestBlank(w, n.nodes, 0)
    requires v == w.(stdIn := w.stdIn[n.nodes[0].id := input])
    ensures Waiting(v, n.nodes, 0, input) && AgreeOff(Below(n), w, v)
  {
    OperandsApart(n);
    var c := n.nodes[0];
    assert c.id in Ids(c) && Blank(w, c);
    forall i | 1 <= i < |n.nodes| ensures Blank(v, n.nodes[i]) {
      assert Blank(w, n.nodes[i]) && Ids(n.nodes[i]) !! Ids(c);
    }
  }

  lemma WaitingPreset(w: Wiring, nodes: seq<Node>, j: nat, input: Stream, nodeIn: Stream, output: Stream)
    requires j < |nodes| && Waiting(w, nodes, j, input)
    requires Some(nodeIn) == if StdIn(w, nodes[j]).Some? then StdIn(w, nodes[j]) else Some(Descriptor(STDIN_FILENO))
    ensures Preset(w, nodes[j], nodeIn, output)
    ensures nodeIn == if j == 0 then input else Descriptor(STDIN_FILENO)
  {
    if j > 0 {
      BlankIsPreset(nodes[j], w, nodeIn, output);
    }
  }

  lemma WaitingNext(w: Wiring, v: Wiring, n: Node, j: nat, input: Stream)
    requires Distinct(n) && n.Operands? && j < |n.nodes| && Waiting(w, n.nodes, j, input)
    requires AgreeOff(Ids(n.nodes[j]), w, v)
    ensures Waiting(v, n.nodes, j + 1, input)
  {
    OperandsApart(n);
    forall i | j + 1 <= i < |n.nodes| ensures Blank(v, n.nodes[i]) {
      BlankKept(n.nodes[i], Ids(n.nodes[j]), w, v);
    }
  }

  lemma NothingAppended(w: Wiring, nodes: seq<Node>, input: Stream, first: nat)
    requires forall i :: 0 <= i < |nodes| ==> NonEmpty(nodes[i])
    ensures AppendPart(w, nodes, 0, [], input, first, first)
  {
    assert nodes[..0] == [];
    StdinTapsSmall();
  }

  lemma AppenderSet(n: Node, u: Wiring, w: Wiring, v: Wiring)
    requires AgreeOff(Below(n), u, w) && n.id in v.appender && v == w.(appender := w.appender[n.id := v.appender[n.id]])
    ensures AgreeOff(Ids(n), u, v) && StdIn(v, n) == StdIn(w, n) && StdOut(v, n) == StdOut(w, n)
  {
    assert n.id in Ids(n);
  }

  /** The fields std_in, std_out and appender of the nodes, and the pipes created so far. */
  class Wirer {
    var stdIn: map<nat, Stream>
    var stdOut: map<nat, Stream>
    var appender: map<nat, Appender>
    var pipes: nat

    constructor ()
      ensures stdIn == map[] && stdOut == map[] && appender == map[] && pipes == 0
    {
      stdIn, stdOut, appender, pipes := map[], map[], map[], 0;
    }

    ghost function W(): Wiring
      reads this
    {
      Wiring(stdIn, stdOut, appender)
    }

    method CreatePipe() returns (p: nat)
      modifies `pipes
      ensures p == old(pipes) && pipes == old(pipes) + 1
    {
      p := pipes;
      pipes := pipes + 1;
    }

    /** wire_redirects: the root reads and writes its own redirects if it has them, otherwise the
        standard streams. */
    method WireRedirects(root: Node)
      requires WellFormed(root) && WidePipes(root) && pipes == 0
      requires forall x :: x in Ids(root) && x != root.id ==> x !in stdIn && x !in stdOut
      requires root.id in stdIn ==> !stdIn[root.id].PipeStream?
      requires root.id in stdOut ==> stdOut[root.id].File?
      modifies this
      ensures AgreeOff(Ids(root), old(W()), W())
      ensures Connected(W(), root) && Wired(W(), root) && Linear(W(), root)
      ensures StdIn(W(), root) == Some(if root.id in old(stdIn) then old(stdIn[root.id]) else Descriptor(STDIN_FILENO))
      ensures StdOut(W(), root) ==
                Some(if root.id in old(stdOut) then old(stdOut[root.id]) else Descriptor(STDOUT_FILENO))
      ensures root.id in stdIn && (root.id !in old(stdIn) ==> stdIn[root.id] == Descriptor(0))
      ensures root.id in stdOut && (root.id !in old(stdOut) ==> stdOut[root.id] == Descriptor(1))
      ensures pipes == PipeCount(root)
      ensures Conserved(W(), root, StdIn(W(), root).value, StdOut(W(), root).value, 0, pipes)
    {
      var output := if root.id in stdOut then stdOut[root.id] else Descriptor(STDOUT_FILENO);
      var input := if root.id in stdIn then stdIn[root.id] else Descriptor(STDIN_FILENO);
      WireRedirectsR(root, input, output);
      ConnectedIsWired(W(), root);
      ConservedIsLinear(W(), root, input, output, pipes);
    }

    method WireRedirectsR(node: Node, input: Stream, output: Stream)
      requires WellFormed(node) && WidePipes(node) && Preset(W(), node, input, output)
      modifies this
      ensures AgreeOff(Ids(node), old(W()), W())
      ensures Connected(W(), node) && StdIn(W(), node) == Some(input) && StdOut(W(), node) == Some(output)
      ensures pipes == old(pipes) + PipeCount(node) && Conserved(W(), node, input, output, old(pipes), pipes)
      decreases node, 1
    {
      hide Connected, Conserved, AgreeOff, RestBlank, Preset, WellFormed, Ids, StdIn, StdOut, WidePipes;
      if node.id !in stdIn {
        stdIn := stdIn[node.id := input];
      }
      if node.id !in stdOut {
        stdOut := stdOut[node.id := output];
      }
      ghost var mid := W();
      StreamsSet(node, old(W()), mid, input, output);
      match node
      case Executable(_, _) =>
        ExecutableConserved(W(), node, input, output, pipes);
      case Operands(_, kind, _) =>
        if kind == Pipe {
          WirePipeNodes(node, input, output);
          OwnStreamsKept(node, mid, W());
          AgreeBelow(node, old(W()), mid, W());
        } else {
          WireOperandNodes(node, input, output);
          AgreeTrans(Ids(node), Ids(node), Ids(node), old(W()), mid, W());
        }
    }

    method WirePipeNodes(n: Node, input: Stream, output: Stream)
      requires WellFormed(n) && WidePipes(n) && n.Operands? && n.kind == Pipe
      requires StdIn(W(), n) == Some(input) && StdOut(W(), n) == Some(output) && RestBlank(W(), n.nodes, 0)
      modifies this
      ensures AgreeOff(Below(n), old(W()), W())
      ensures Connected(W(), n)
      ensures pipes == old(pipes) + PipeCount(n) && Conserved(W(), n, input, output, old(pipes), pipes)
      decreases n, 0
    {
      hide Connected, Conserved, AgreeOff, RestBlank, PipePart, Blank, Preset, Below, Distinct, NonEmpty, Ids;
      hide StdIn, StdOut;
      ghost var first := pipes;
      OperandWirable(n, 0);
      var pipeCount := |n.nodes| - 1;
      var created := new nat[pipeCount];
      for i := 0 to pipeCount
        invariant pipes == first + i && W() == old(W())
        invariant forall j :: 0 <= j < i ==> created[j] == first + j
      {
        created[i] := CreatePipe();
      }

      // wire first node
      ReadyBlank(n, W(), 0, input, PipeStream(created[0]));
      WireRedirectsR(n.nodes[0], input, PipeStream(created[0]));
      PipePartFirst(W(), n.nodes, input, PipeStream(first), first, first + pipeCount, pipes);
      RestBlankNext(old(W()), W(), n, 0);
      Agreed(n, 0, old(W()), old(W()), W());

      // wire middle nodes
      for i := 1 to |n.nodes| - 1
        invariant forall j :: 0 <= j < pipeCount ==> created[j] == first + j
        invariant PipePart(W(), n.nodes, i, input, PipeStream(first + i - 1), first, first + pipeCount, pipes)
        invariant RestBlank(W(), n.nodes, i) && AgreeOff(Below(n), old(W()), W())
      {
        ghost var before, m := W(), pipes;
        OperandWirable(n, i);
        ReadyBlank(n, W(), i, PipeStream(created[i - 1]), PipeStream(created[i]));
        WireRedirectsR(n.nodes[i], PipeStream(created[i - 1]), PipeStream(created[i]));
        PipePartNext(before, W(), n.nodes, i, input, PipeStream(first + i), first, first + pipeCount, m, pipes);
        RestBlankNext(before, W(), n, i);
        Agreed(n, i, old(W()), before, W());
      }

      // wire last node
      ghost var before, m := W(), pipes;
      OperandWirable(n, pipeCount);
      ReadyBlank(n, W(), pipeCount, PipeStream(created[pipeCount - 1]), output);
      WireRedirectsR(n.nodes[pipeCount], PipeStream(created[pipeCount - 1]), output);
      PipePartNext(before, W(), n.nodes, pipeCount, input, output, first, first + pipeCount, m, pipes);
      Agreed(n, pipeCount, old(W()), before, W());
      OwnStreamsKept(n, old(W()), W());
      WholePipe(W(), n, input, output, first, pipes);
    }

    method WireOperandNodes(n: Node, input: Stream, output: Stream)
      requires WellFormed(n) && WidePipes(n) && Appends(n)
      requires StdIn(W(), n) == Some(input) && StdOut(W(), n) == Some(output) && RestBlank(W(), n.nodes, 0)
      modifies this
      ensures AgreeOff(Ids(n), old(W()), W())
      ensures Connected(W(), n) && StdIn(W(), n) == Some(input) && StdOut(W(), n) == Some(output)
      ensures pipes == old(pipes) + PipeCount(n) && Conserved(W(), n, input, output, old(pipes), pipes)
      decreases n, 0
    {
      hide Connected, Conserved, AgreeOff, RestBlank, AppendPart, Blank, Preset, Below, Distinct, NonEmpty;
      hide Ids, StdOut, Waiting;
      ghost var first := pipes;
      AtLeastOne(n);
      OperandWirable(n, 0);
      stdIn := stdIn[n.nodes[0].id := input];
      FirstPreset(n, old(W()), W(), input);
      var from: array<Stream> := new Stream[|n.nodes|];
      NothingAppended(W(), n.nodes, input, first);
      assert from[..0] == [];
      for i := 0 to |n.nodes|
        invariant AppendPart(W(), n.nodes, i, from[..i], input, first, pipes)
        invariant Waiting(W(), n.nodes, i, input) && AgreeOff(Below(n), old(W()), W())
      {
        ghost var before, done := W(), from[..i];
        OperandWirable(n, i);
        var node := n.nodes[i];
        var nodeToConcat := CreatePipe();
        ghost var m := nodeToConcat;
        var nodeIn := if node.id in stdIn then stdIn[node.id] else Descriptor(STDIN_FILENO);
        WaitingPreset(before, n.nodes, i, input, nodeIn, PipeStream(m));
        WireRedirectsR(node, nodeIn, PipeStream(nodeToConcat));
        from[i] := PipeStream(nodeToConcat);
        assert from[..i + 1] == done + [PipeStream(m)];
        AppendPartNext(before, W(), n.nodes, i, done, input, nodeIn, first, m, pipes);
        WaitingNext(before, W(), n, i, input);
        Agreed(n, i, old(W()), before, W());
      }
      ghost var w := W();
      OwnStreamsKept(n, old(W()), w);
      assert from[..] == from[..|n.nodes|];
      appender := appender[n.id := Appender(from[..], output)];
      WholeAppend(w, W(), n, input, output, first, pipes, Appender(from[..], output));
      AppenderSet(n, old(W()), w, W());
    }
  }
}
