/** Wiring the streams of a command tree (src/parse/builtin.c). */
module Wire {
  import opened Nodes
  import opened Streams

  /** Pipes have at least two operands, as the parser makes them. */
  ghost predicate WidePipes(n: Node) {
    n.Operands? ==> (n.kind == Pipe ==> |n.nodes| >= 2) && forall i :: 0 <= i < |n.nodes| ==> WidePipes(n.nodes[i])
  }

  // ---- what has to be created

  /** One pipe between neighbours of a Pipe, one pipe per operand of any other operator. */
  ghost function PipeCount(n: Node): nat
    requires NonEmpty(n)
    decreases n, 1
  {
    if n.Executable? then 0
    else (if n.kind == Pipe then |n.nodes| - 1 else |n.nodes|) + PipeCountAll(n.nodes)
  }

  ghost function PipeCountAll(nodes: seq<Node>): nat
    requires forall i :: 0 <= i < |nodes| ==> NonEmpty(nodes[i])
    decreases nodes, 0
  {
    if nodes == [] then 0 else PipeCount(nodes[0]) + PipeCountAll(nodes[1..])
  }

  /** Every operand but the first of an And, Or or Semicolon reads the standard input. */
  ghost function StdinCount(n: Node): nat
    requires NonEmpty(n)
    decreases n, 1
  {
    if n.Executable? then 0
    else (if n.kind == Pipe then 0 else |n.nodes| - 1) + StdinCountAll(n.nodes)
  }

  ghost function StdinCountAll(nodes: seq<Node>): nat
    requires forall i :: 0 <= i < |nodes| ==> NonEmpty(nodes[i])
    decreases nodes, 0
  {
    if nodes == [] then 0 else StdinCount(nodes[0]) + StdinCountAll(nodes[1..])
  }

  lemma {:induction false} CountsSnoc(nodes: seq<Node>, k: nat)
    requires k < |nodes| && forall i :: 0 <= i < |nodes| ==> NonEmpty(nodes[i])
    ensures PipeCountAll(nodes[..k + 1]) == PipeCountAll(nodes[..k]) + PipeCount(nodes[k])
    ensures StdinCountAll(nodes[..k + 1]) == StdinCountAll(nodes[..k]) + StdinCount(nodes[k])
  {
    if k == 0 {
      assert nodes[..1][1..] == [] && nodes[..0] == [];
    } else {
      CountsSnoc(nodes[1..], k - 1);
      assert nodes[..k + 1][1..] == nodes[1..][..k] && nodes[..k][1..] == nodes[1..][..k - 1];
    }
  }

  /** Both taps of one pipe. */
  ghost function BothEnds(p: nat): multiset<Tap> {
    multiset{Tap(PipeStream(p), ReadEnd), Tap(PipeStream(p), WriteEnd)}
  }

  /** Both taps of every pipe from a up to b. */
  ghost function PipeTaps(a: nat, b: nat): multiset<Tap>
    decreases b
  {
    if a >= b then multiset{} else PipeTaps(a, b - 1) + BothEnds(b - 1)
  }

  lemma {:induction false} PipeTapsJoin(a: nat, b: nat, c: nat)
    requires a <= b <= c
    ensures PipeTaps(a, c) == PipeTaps(a, b) + PipeTaps(b, c)
    decreases c
  {
    hide BothEnds;
    if b < c {
      PipeTapsJoin(a, b, c - 1);
      Associative(PipeTaps(a, b), PipeTaps(b, c - 1), BothEnds(c - 1));
    }
  }

  lemma Associative<T>(a: multiset<T>, b: multiset<T>, c: multiset<T>)
    ensures (a + b) + c == a + (b + c)
  {
  }

  lemma Swap<T>(a: multiset<T>, b: multiset<T>, c: multiset<T>)
    ensures (a + b) + c == (a + c) + b
  {
  }

  lemma PipeTapsSnoc(a: nat, b: nat)
    requires a <= b
    ensures PipeTaps(a, b + 1) == PipeTaps(a, b) + BothEnds(b)
  {
  }

  lemma PairCount(p: nat, t: Tap)
    ensures BothEnds(p)[t] == if t.stream == PipeStream(p) then 1 else 0
  {
    if t.stream == PipeStream(p) {
      match t.end { case ReadEnd => case WriteEnd => }
    }
  }

  lemma {:induction false} PipeTapsOnce(a: nat, b: nat, t: Tap)
    ensures PipeTaps(a, b)[t] == if t.stream.PipeStream? && a <= t.stream.pipe < b then 1 else 0
    decreases b
  {
    hide BothEnds;
    if a < b {
      PipeTapsOnce(a, b - 1, t);
      PairCount(b - 1, t);
    }
  }

  lemma StdinTapsJoin(j: nat, k: nat)
    ensures StdinTaps(j) + StdinTaps(k) == StdinTaps(j + k)
  {
  }

  ghost function StdinTaps(k: nat): multiset<Tap> {
    multiset{}[Tap(Descriptor(STDIN_FILENO), ReadEnd) := k]
  }

  // ---- what a wired tree looks like

  ghost function StdIn(w: Wiring, n: Node): Option<Stream> {
    if n.id in w.stdIn then Some(w.stdIn[n.id]) else None
  }

  ghost function StdOut(w: Wiring, n: Node): Option<Stream> {
    if n.id in w.stdOut then Some(w.stdOut[n.id]) else None
  }

  /** Every node's streams are its operands' streams: a Pipe chains its operands, any other operator
      sends the output of each operand through a pipe of its own to the appender, in order. */
  ghost predicate Connected(w: Wiring, n: Node) {
    && StdIn(w, n).Some? && StdOut(w, n).Some?
    && (n.Operands? ==>
          && |n.nodes| > 0
          && (forall i :: 0 <= i < |n.nodes| ==> Connected(w, n.nodes[i]))
          && StdIn(w, n.nodes[0]) == StdIn(w, n)
          && (n.kind == Pipe ==> Chained(w, n.nodes) && StdOut(w, n.nodes[|n.nodes| - 1]) == StdOut(w, n))
          && (n.kind != Pipe ==> Appended(w, n)))
  }

  ghost predicate Chained(w: Wiring, nodes: seq<Node>) {
    forall i :: 0 <= i < |nodes| - 1 ==> Linked(w, nodes, i)
  }

  /** Operand i + 1 reads the pipe operand i writes. */
  ghost predicate Linked(w: Wiring, nodes: seq<Node>, i: nat)
    requires i < |nodes| - 1
  {
    StdOut(w, nodes[i]).Some? && StdOut(w, nodes[i]).value.PipeStream? && StdIn(w, nodes[i + 1]) == StdOut(w, nodes[i])
  }

  ghost predicate Appended(w: Wiring, n: Node)
    requires n.Operands?
  {
    && n.id in w.appender && Some(w.appender[n.id].to) == StdOut(w, n)
    && |w.appender[n.id].from| == |n.nodes|
    && forall i :: 0 <= i < |n.nodes| ==> Collected(w, n.nodes, w.appender[n.id].from, i)
  }

  /** The appender reads the output of operand i through a pipe; all operands but the first read
      the standard input. */
  ghost predicate Collected(w: Wiring, nodes: seq<Node>, from: seq<Stream>, i: nat)
    requires i < |nodes| && i < |from|
  {
    && from[i].PipeStream? && StdOut(w, nodes[i]) == Some(from[i])
    && (i > 0 ==> StdIn(w, nodes[i]) == Some(Descriptor(STDIN_FILENO)))
  }

  /** w and v differ at most at `ids`. */
  ghost predicate AgreeOff(ids: set<nat>, w: Wiring, v: Wiring) {
    && (forall x :: x !in ids ==> (x in w.stdIn <==> x in v.stdIn) && (x in w.stdIn ==> w.stdIn[x] == v.stdIn[x]))
    && (forall x :: x !in ids ==> (x in w.stdOut <==> x in v.stdOut) && (x in w.stdOut ==> w.stdOut[x] == v.stdOut[x]))
    && (forall x :: x !in ids ==> (x in w.appender <==> x in v.appender))
    && (forall x :: x !in ids && x in w.appender ==> w.appender[x] == v.appender[x])
  }

  lemma SameStreams(n: Node, ids: set<nat>, w: Wiring, v: Wiring)
    requires AgreeOff(ids, w, v) && ids !! Ids(n)
    ensures StdIn(v, n) == StdIn(w, n) && StdOut(v, n) == StdOut(w, n) && TapsOf(w, n) == TapsOf(v, n)
    ensures (n.id in w.appender <==> n.id in v.appender)
    ensures (n.id in w.appender ==> w.appender[n.id] == v.appender[n.id])
  {
    assert n.id in Ids(n);
  }

  lemma {:induction false} ConnectedElsewhere(n: Node, ids: set<nat>, w: Wiring, v: Wiring)
    requires AgreeOff(ids, w, v) && ids !! Ids(n) && Connected(w, n)
    ensures Connected(v, n)
  {
    hide AgreeOff, StdIn, StdOut;
    SameStreams(n, ids, w, v);
    if n.Operands? {
      forall i | 0 <= i < |n.nodes|
        ensures Connected(v, n.nodes[i]) && StdIn(v, n.nodes[i]) == StdIn(w, n.nodes[i])
        ensures StdOut(v, n.nodes[i]) == StdOut(w, n.nodes[i])
      {
        ConnectedElsewhere(n.nodes[i], ids, w, v);
        SameStreams(n.nodes[i], ids, w, v);
      }
      if n.kind == Pipe {
        forall i: nat | i < |n.nodes| - 1 ensures Linked(v, n.nodes, i) {
          assert Linked(w, n.nodes, i);
        }
      } else {
        forall i: nat | i < |n.nodes| ensures Collected(v, n.nodes, v.appender[n.id].from, i) {
          assert Collected(w, n.nodes, w.appender[n.id].from, i);
        }
      }
    }
  }

  /** The taps of the first j operands do not notice what happens to the others. */
  lemma TapsElsewhere(nodes: seq<Node>, ids: set<nat>, w: Wiring, v: Wiring)
    requires AgreeOff(ids, w, v) && forall i :: 0 <= i < |nodes| ==> ids !! Ids(nodes[i])
    ensures GatherAll(nodes, TapsFn(v)) == GatherAll(nodes, TapsFn(w))
  {
    GatherAllCongruent(nodes, TapsFn(v), TapsFn(w));
  }

  lemma GatherSnoc<T>(nodes: seq<Node>, k: nat, f: Node -> multiset<T>)
    requires k < |nodes|
    ensures GatherAll(nodes[..k + 1], f) == GatherAll(nodes[..k], f) + Gather(nodes[k], f)
  {
    GatherSplit(nodes[..k + 1], k, f);
    assert nodes[..k + 1][..k] == nodes[..k] && nodes[..k + 1][k + 1..] == [];
  }

  /** A connected tree has what the engine needs. */
  lemma {:induction false} ConnectedIsWired(w: Wiring, n: Node)
    requires Connected(w, n)
    requires StdOut(w, n).value.Descriptor? ==> StdOut(w, n).value.fd == STDOUT_FILENO
    ensures Wired(w, n)
  {
    if n.Operands? {
      forall i: nat | i < |n.nodes| ensures Wired(w, n.nodes[i]) {
        if n.kind != Pipe {
          assert Collected(w, n.nodes, w.appender[n.id].from, i);
        } else if i < |n.nodes| - 1 {
          assert Linked(w, n.nodes, i);
        }
        ConnectedIsWired(w, n.nodes[i]);
      }
      if n.kind != Pipe {
        forall i: nat | i < |n.nodes| ensures w.appender[n.id].from[i].PipeStream? {
          assert Collected(w, n.nodes, w.appender[n.id].from, i);
        }
      }
    }
  }

  /** Conservation: the processes below a node read its input once and write its output once, read
      and write every pipe created for it once, and otherwise only read the standard input. */
  ghost predicate Conserved(w: Wiring, n: Node, input: Stream, output: Stream, a: nat, b: nat)
    requires NonEmpty(n)
  {
    Gather(n, TapsFn(w)) ==
      multiset{Tap(input, ReadEnd), Tap(output, WriteEnd)} + PipeTaps(a, b) + StdinTaps(StdinCount(n))
  }

  lemma TapCount(input: Stream, output: Stream, b: nat, k: nat, t: Tap)
    requires !input.PipeStream? && !output.PipeStream? && t.stream.PipeStream?
    ensures (multiset{Tap(input, ReadEnd), Tap(output, WriteEnd)} + PipeTaps(0, b) + StdinTaps(k))[t]
         == if t.stream.pipe < b then 1 else 0
  {
    PipeTapsOnce(0, b, t);
  }

  /** Linear wiring: each of the b pipes has exactly one process that reads it and exactly one
      that writes it. */
  lemma ConservedIsLinear(w: Wiring, n: Node, input: Stream, output: Stream, b: nat)
    requires NonEmpty(n) && Conserved(w, n, input, output, 0, b) && !input.PipeStream? && !output.PipeStream?
    ensures forall t: Tap :: t.stream.PipeStream? ==> Gather(n, TapsFn(w))[t] == if t.stream.pipe < b then 1 else 0
    ensures Linear(w, n)
  {
    hide NonEmpty, Gather, PipeTaps, StdinTaps, StdinCount;
    forall t: Tap | t.stream.PipeStream? ensures Gather(n, TapsFn(w))[t] == if t.stream.pipe < b then 1 else 0 {
      TapCount(input, output, b, StdinCount(n), t);
    }
  }

  // ---- the loops' progress

  /** The first j operands of a Pipe have been wired; first is the number of its first pipe, next
      the number of the first pipe created below it. */
  ghost predicate PipePart(w: Wiring, nodes: seq<Node>, j: nat, input: Stream, output: Stream, first: nat,
      next: nat, pipes: nat)
    requires 0 < j <= |nodes| && forall i :: 0 <= i < |nodes| ==> NonEmpty(nodes[i])
  {
    && (forall i :: 0 <= i < j ==> Connected(w, nodes[i]))
    && StdIn(w, nodes[0]) == Some(input) && StdOut(w, nodes[j - 1]) == Some(output)
    && Chained(w, nodes[..j])
    && next <= pipes == next + PipeCountAll(nodes[..j])
    && GatherAll(nodes[..j], TapsFn(w)) ==
         multiset{Tap(input, ReadEnd), Tap(output, WriteEnd)} + PipeTaps(first, first + j - 1)
         + PipeTaps(next, pipes) + StdinTaps(StdinCountAll(nodes[..j]))
  }

  lemma PipePartFirst(w: Wiring, nodes: seq<Node>, input: Stream, output: Stream, first: nat, next: nat, pipes: nat)
    requires |nodes| > 0 && forall i :: 0 <= i < |nodes| ==> NonEmpty(nodes[i])
    requires Connected(w, nodes[0]) && StdIn(w, nodes[0]) == Some(input) && StdOut(w, nodes[0]) == Some(output)
    requires next <= pipes == next + PipeCount(nodes[0]) && Conserved(w, nodes[0], input, output, next, pipes)
    ensures PipePart(w, nodes, 1, input, output, first, next, pipes)
  {
    hide Connected, StdIn, StdOut, Gather, GatherAll, TapsFn, PipeTaps, StdinTaps, StdinCount, StdinCountAll;
    hide PipeCount, PipeCountAll, NonEmpty;
    NothingYet(first, TapsFn(w));
    assert nodes[..0] == [];
    CountsSnoc(nodes, 0);
    GatherSnoc(nodes, 0, TapsFn(w));
  }

  lemma NothingYet(first: nat, f: Node -> multiset<Tap>)
    ensures PipeTaps(first, first) == multiset{} && GatherAll([], f) == multiset{}
    ensures StdinCountAll([]) == 0 && PipeCountAll([]) == 0
  {
  }

  /** Wiring operand j leaves the operands before it as they are. */
  lemma EarlierKept(w: Wiring, v: Wiring, nodes: seq<Node>, j: nat)
    requires j < |nodes| && (forall i :: 0 <= i < j ==> Ids(nodes[j]) !! Ids(nodes[i]))
    requires AgreeOff(Ids(nodes[j]), w, v) && forall i :: 0 <= i < j ==> Connected(w, nodes[i])
    ensures forall i :: 0 <= i < j ==> Connected(v, nodes[i])
    ensures forall i :: 0 <= i < j ==>
              StdIn(v, nodes[i]) == StdIn(w, nodes[i]) && StdOut(v, nodes[i]) == StdOut(w, nodes[i])
  {
    forall i | 0 <= i < j
      ensures Connected(v, nodes[i]) && StdIn(v, nodes[i]) == StdIn(w, nodes[i])
      ensures StdOut(v, nodes[i]) == StdOut(w, nodes[i])
    {
      SameStreams(nodes[i], Ids(nodes[j]), w, v);
      ConnectedElsewhere(nodes[i], Ids(nodes[j]), w, v);
    }
  }

  /** The next operand of a Pipe reads what the operand before it writes. */
  lemma PipePartNext(w: Wiring, v: Wiring, nodes: seq<Node>, j: nat, input: Stream, output: Stream, first: nat,
      next: nat, m: nat, pipes: nat)
    requires 0 < j < |nodes| && forall i :: 0 <= i < |nodes| ==> NonEmpty(nodes[i])
    requires forall i :: 0 <= i < j ==> Ids(nodes[j]) !! Ids(nodes[i])
    requires PipePart(w, nodes, j, input, PipeStream(first + j - 1), first, next, m)
    requires AgreeOff(Ids(nodes[j]), w, v)
    requires Connected(v, nodes[j]) && StdIn(v, nodes[j]) == Some(PipeStream(first + j - 1))
    requires StdOut(v, nodes[j]) == Some(output)
    requires m <= pipes == m + PipeCount(nodes[j])
    requires Conserved(v, nodes[j], PipeStream(first + j - 1), output, m, pipes)
    ensures PipePart(v, nodes, j + 1, input, output, first, next, pipes)
  {
    hide StdinTaps, StdinCountAll, PipeTaps, Gather, GatherAll, Conserved, Connected, AgreeOff, StdIn, StdOut;
    hide Ids, NonEmpty;
    EarlierKept(w, v, nodes, j);
    PipePartTaps(w, v, nodes, j, input, output, first, next, m, pipes);
    var part := nodes[..j + 1];
    forall i: nat | i < |part| - 1 ensures Linked(v, part, i) {
      if i < j - 1 {
        assert Linked(w, nodes[..j], i);
      }
    }
    CountsSnoc(nodes, j);
  }

  lemma PipePartTaps(w: Wiring, v: Wiring, nodes: seq<Node>, j: nat, input: Stream, output: Stream, first: nat,
      next: nat, m: nat, pipes: nat)
    requires 0 < j < |nodes| && forall i :: 0 <= i < |nodes| ==> NonEmpty(nodes[i])
    requires forall i :: 0 <= i < j ==> Ids(nodes[j]) !! Ids(nodes[i])
    requires next <= m <= pipes && AgreeOff(Ids(nodes[j]), w, v)
    requires GatherAll(nodes[..j], TapsFn(w)) ==
         multiset{Tap(input, ReadEnd), Tap(PipeStream(first + j - 1), WriteEnd)} + PipeTaps(first, first + j - 1)
         + PipeTaps(next, m) + StdinTaps(StdinCountAll(nodes[..j]))
    requires Conserved(v, nodes[j], PipeStream(first + j - 1), output, m, pipes)
    ensures GatherAll(nodes[..j + 1], TapsFn(v)) ==
         multiset{Tap(input, ReadEnd), Tap(output, WriteEnd)} + PipeTaps(first, first + j)
         + PipeTaps(next, pipes) + StdinTaps(StdinCountAll(nodes[..j + 1]))
  {
    hide StdinTaps, StdinCountAll, StdinCount, PipeTaps, Gather, GatherAll, AgreeOff, Ids, NonEmpty, TapsFn;
    TapsElsewhere(nodes[..j], Ids(nodes[j]), w, v);
    GatherSnoc(nodes, j, TapsFn(v));
    CountsSnoc(nodes, j);
    ChainJoin(input, output, first, j, next, m, pipes, StdinCountAll(nodes[..j]), StdinCount(nodes[j]));
  }

  /** What j operands of a Pipe use, joined with what operand j uses. */
  lemma ChainJoin(input: Stream, output: Stream, first: nat, j: nat, next: nat, m: nat, pipes: nat, before: nat,
      more: nat)
    requires j > 0 && next <= m <= pipes
    ensures
      var link := PipeStream(first + j - 1);
      (multiset{Tap(input, ReadEnd), Tap(link, WriteEnd)} + PipeTaps(first, first + j - 1) + PipeTaps(next, m)
        + StdinTaps(before))
      + (multiset{Tap(link, ReadEnd), Tap(output, WriteEnd)} + PipeTaps(m, pipes) + StdinTaps(more))
      == multiset{Tap(input, ReadEnd), Tap(output, WriteEnd)} + PipeTaps(first, first + j)
        + PipeTaps(next, pipes) + StdinTaps(before + more)
  {
    PipeTapsJoin(next, m, pipes);
    PipeTapsSnoc(first, first + j - 1);
    StdinTapsJoin(before, more);
    hide PipeTaps, StdinTaps;
  }

  /** The first j operands of an And, Or or Semicolon have been wired and collected. */
  ghost predicate AppendPart(w: Wiring, nodes: seq<Node>, j: nat, from: seq<Stream>, input: Stream, first: nat,
      pipes: nat)
    requires j <= |nodes| && forall i :: 0 <= i < |nodes| ==> NonEmpty(nodes[i])
  {
    && |from| == j
    && (forall i :: 0 <= i < j ==> Connected(w, nodes[i]))
    && (j > 0 ==> StdIn(w, nodes[0]) == Some(input))
    && (forall i :: 0 <= i < j ==> Collected(w, nodes, from, i))
    && first <= pipes == first + j + PipeCountAll(nodes[..j])
    && GatherAll(nodes[..j], TapsFn(w)) + multiset(Taps(from, ReadEnd)) ==
         (if j > 0 then multiset{Tap(input, ReadEnd)} else multiset{}) + PipeTaps(first, pipes)
         + StdinTaps(StdinCountAll(nodes[..j]) + if j > 0 then j - 1 else 0)
  }

  lemma AppendPartNext(w: Wiring, v: Wiring, nodes: seq<Node>, j: nat, from: seq<Stream>, input: Stream,
      nodeIn: Stream, first: nat, m: nat, pipes: nat)
    requires j < |nodes| && forall i :: 0 <= i < |nodes| ==> NonEmpty(nodes[i])
    requires forall i :: 0 <= i < j ==> Ids(nodes[j]) !! Ids(nodes[i])
    requires AppendPart(w, nodes, j, from, input, first, m)
    requires nodeIn == if j == 0 then input else Descriptor(STDIN_FILENO)
    requires AgreeOff(Ids(nodes[j]), w, v)
    requires Connected(v, nodes[j]) && StdIn(v, nodes[j]) == Some(nodeIn) && StdOut(v, nodes[j]) == Some(PipeStream(m))
    requires m + 1 <= pipes == m + 1 + PipeCount(nodes[j])
    requires Conserved(v, nodes[j], nodeIn, PipeStream(m), m + 1, pipes)
    ensures AppendPart(v, nodes, j + 1, from + [PipeStream(m)], input, first, pipes)
  {
    hide StdinTaps, StdinCountAll, PipeTaps, Gather, GatherAll, Conserved, Connected, AgreeOff, StdIn, StdOut;
    hide Ids, NonEmpty;
    EarlierKept(w, v, nodes, j);
    AppendPartTaps(w, v, nodes, j, from, input, nodeIn, first, m, pipes);
    forall i: nat | i < j ensures Collected(v, nodes, from + [PipeStream(m)], i) {
      assert Collected(w, nodes, from, i);
    }
    CountsSnoc(nodes, j);
  }

  lemma AppendPartTaps(w: Wiring, v: Wiring, nodes: seq<Node>, j: nat, from: seq<Stream>, input: Stream,
      nodeIn: Stream, first: nat, m: nat, pipes: nat)
    requires j < |nodes| && forall i :: 0 <= i < |nodes| ==> NonEmpty(nodes[i])
    requires forall i :: 0 <= i < j ==> Ids(nodes[j]) !! Ids(nodes[i])
    requires first <= m < pipes && AgreeOff(Ids(nodes[j]), w, v)
    requires nodeIn == if j == 0 then input else Descriptor(STDIN_FILENO)
    requires GatherAll(nodes[..j], TapsFn(w)) + multiset(Taps(from, ReadEnd)) ==
         (if j > 0 then multiset{Tap(input, ReadEnd)} else multiset{}) + PipeTaps(first, m)
         + StdinTaps(StdinCountAll(nodes[..j]) + if j > 0 then j - 1 else 0)
    requires Conserved(v, nodes[j], nodeIn, PipeStream(m), m + 1, pipes)
    ensures GatherAll(nodes[..j + 1], TapsFn(v)) + multiset(Taps(from + [PipeStream(m)], ReadEnd)) ==
         multiset{Tap(input, ReadEnd)} + PipeTaps(first, pipes) + StdinTaps(StdinCountAll(nodes[..j + 1]) + j)
  {
    hide StdinTaps, StdinCountAll, StdinCount, PipeTaps, Gather, GatherAll, AgreeOff, Ids, NonEmpty, TapsFn;
    TapsElsewhere(nodes[..j], Ids(nodes[j]), w, v);
    GatherSnoc(nodes, j, TapsFn(v));
    CountsSnoc(nodes, j);
    TapsSnoc(from, PipeStream(m), ReadEnd);
    var before := StdinCountAll(nodes[..j]) + if j > 0 then j - 1 else 0;
    CollectJoin(j, input, nodeIn, first, m, pipes, before, StdinCount(nodes[j]));
    Regroup(GatherAll(nodes[..j], TapsFn(w)), Gather(nodes[j], TapsFn(v)), multiset(Taps(from, ReadEnd)),
            multiset{Tap(PipeStream(m), ReadEnd)});
  }

  lemma Regroup<T>(a: multiset<T>, b: multiset<T>, c: multiset<T>, d: multiset<T>)
    ensures (a + b) + (c + d) == (a + c) + b + d
  {
  }

  /** What j operands and the reading of their outputs use, joined with what operand j uses and the
      reading of its output. */
  lemma CollectJoin(j: nat, input: Stream, nodeIn: Stream, first: nat, m: nat, pipes: nat, before: nat, more: nat)
    requires first <= m < pipes && nodeIn == if j == 0 then input else Descriptor(STDIN_FILENO)
    ensures
      var given := if j > 0 then multiset{Tap(input, ReadEnd)} else multiset{};
      (given + PipeTaps(first, m) + StdinTaps(before))
      + (multiset{Tap(nodeIn, ReadEnd), Tap(PipeStream(m), WriteEnd)} + PipeTaps(m + 1, pipes) + StdinTaps(more))
      + multiset{Tap(PipeStream(m), ReadEnd)}
      == multiset{Tap(input, ReadEnd)} + PipeTaps(first, pipes) + StdinTaps(before + more + if j > 0 then 1 else 0)
  {
    var given := if j > 0 then multiset{Tap(input, ReadEnd)} else multiset{};
    SortOut(given, Tap(nodeIn, ReadEnd), PipeStream(m), PipeTaps(first, m), PipeTaps(m + 1, pipes),
            StdinTaps(before), StdinTaps(more));
    PipeTapsSnoc(first, m);
    PipeTapsJoin(first, m + 1, pipes);
    StdinShare(j, input, nodeIn, before, more);
    hide PipeTaps, StdinTaps;
    Swap(multiset{Tap(input, ReadEnd)}, StdinTaps(before + more + if j > 0 then 1 else 0), PipeTaps(first, pipes));
  }

  lemma SortOut(given: multiset<Tap>, own: Tap, s: Stream, p: multiset<Tap>, q: multiset<Tap>, x: multiset<Tap>,
      y: multiset<Tap>)
    ensures (given + p + x) + (multiset{own, Tap(s, WriteEnd)} + q + y) + multiset{Tap(s, ReadEnd)}
         == (given + multiset{own} + (x + y)) + (p + multiset{Tap(s, ReadEnd), Tap(s, WriteEnd)} + q)
  {
  }

  /** The first operand takes the input, every other one the standard input. */
  lemma StdinShare(j: nat, input: Stream, nodeIn: Stream, before: nat, more: nat)
    requires nodeIn == if j == 0 then input else Descriptor(STDIN_FILENO)
    ensures (if j > 0 then multiset{Tap(input, ReadEnd)} else multiset{}) + multiset{Tap(nodeIn, ReadEnd)}
            + (StdinTaps(before) + StdinTaps(more))
         == multiset{Tap(input, ReadEnd)} + StdinTaps(before + more + if j > 0 then 1 else 0)
  {
    hide StdinTaps;
    StdinTapsJoin(before, more);
    StdinTapsJoin(before + more, if j > 0 then 1 else 0);
    StdinTapsSmall();
  }

  lemma TapsSnoc(from: seq<Stream>, s: Stream, end: End)
    ensures multiset(Taps(from + [s], end)) == multiset(Taps(from, end)) + multiset{Tap(s, end)}
  {
    assert Taps(from + [s], end) == Taps(from, end) + [Tap(s, end)];
  }

  lemma StdinTapsSmall()
    ensures StdinTaps(0) == multiset{} && StdinTaps(1) == multiset{Tap(Descriptor(STDIN_FILENO), ReadEnd)}
  {
  }
}
