/** Streams, pipes and appenders (src/structs/stream.h), and who uses which end of a pipe. */
module Streams {
  import opened Nodes

  const STDIN_FILENO := 0
  const STDOUT_FILENO := 1

  datatype Stream = Descriptor(fd: int) | File(name: string, openFlag: int) | PipeStream(pipe: nat)

  /** Concatenates the output of the operands of an And, Or or Semicolon. */
  datatype Appender = Appender(from: seq<Stream>, to: Stream)

  /** node->std_in, node->std_out and operands->appender of every node, by address; a missing key
      is a NULL pointer. */
  datatype Wiring = Wiring(stdIn: map<nat, Stream>, stdOut: map<nat, Stream>, appender: map<nat, Appender>)

  datatype End = ReadEnd | WriteEnd

  /** One process reading or writing one stream. */
  datatype Tap = Tap(stream: Stream, end: End)

  function Taps(streams: seq<Stream>, end: End): (taps: seq<Tap>)
    ensures |taps| == |streams|
    ensures forall i :: 0 <= i < |streams| ==> taps[i] == Tap(streams[i], end)
  {
    seq(|streams|, i requires 0 <= i < |streams| => Tap(streams[i], end))
  }

  ghost function AppenderTaps(a: Appender): multiset<Tap> {
    multiset(Taps(a.from, ReadEnd)) + multiset{Tap(a.to, WriteEnd)}
  }

  ghost predicate Appends(n: Node) {
    n.Operands? && n.kind != Pipe
  }

  /** The taps of the process a node stands for: an executable reads its standard input and writes
      its standard output, the appender of an And, Or or Semicolon reads one pipe per operand and
      writes the operator's output. A Pipe node is no process. */
  ghost function TapsOf(w: Wiring, n: Node): multiset<Tap> {
    if n.Executable? then
      if n.id in w.stdIn && n.id in w.stdOut
      then multiset{Tap(w.stdIn[n.id], ReadEnd), Tap(w.stdOut[n.id], WriteEnd)} else multiset{}
    else if n.kind != Pipe && n.id in w.appender
      then AppenderTaps(w.appender[n.id]) else multiset{}
  }

  ghost function TapsFn(w: Wiring): Node -> multiset<Tap> {
    (n: Node) => TapsOf(w, n)
  }

  /** The write ends an appender leaves in the table of appender descriptors. */
  ghost function TableFn(w: Wiring): Node -> multiset<Tap> {
    (n: Node) => if Appends(n) && n.id in w.appender
      then multiset(Taps(w.appender[n.id].from, WriteEnd)) else multiset{}
  }

  /** Every process has its streams; an appender has one pipe for each operand. */
  ghost predicate Wired(w: Wiring, n: Node) {
    && (n.Executable? ==> n.id in w.stdIn && n.id in w.stdOut)
    && (Appends(n) ==>
          && n.id in w.appender && |w.appender[n.id].from| == |n.nodes|
          && (forall s :: s in w.appender[n.id].from ==> s.PipeStream?)
          && (w.appender[n.id].to.Descriptor? ==> w.appender[n.id].to.fd == STDOUT_FILENO))
    && (n.Operands? ==> forall i :: 0 <= i < |n.nodes| ==> Wired(w, n.nodes[i]))
  }

  lemma {:induction false} WiredAt(w: Wiring, n: Node, p: seq<nat>)
    requires Wired(w, n) && ValidPath(n, p)
    ensures Wired(w, At(n, p))
  {
    if p != [] {
      WiredAt(w, n.nodes[p[0]], p[1..]);
    }
  }

  /** No pipe end is tapped twice. */
  ghost predicate Linear(w: Wiring, n: Node) {
    forall t: Tap :: t.stream.PipeStream? ==> Gather(n, TapsFn(w))[t] <= 1
  }

  // ---- the descriptors the appenders need

  /** The descriptor bound computed before execution starts. */
  ghost function MaxFds(n: Node): nat
    decreases n, 1
  {
    if n.Executable? then 0
    else (if n.kind != Pipe then 2 * |n.nodes| + 2 else 0) + MaxFdsAll(n.nodes)
  }

  ghost function MaxFdsAll(nodes: seq<Node>): nat
    decreases nodes, 0
  {
    if nodes == [] then 0 else MaxFds(nodes[0]) + MaxFdsAll(nodes[1..])
  }

  /** The operand counts of the started operators that append. */
  ghost function StartedOperands(n: Node, started: set<nat>): nat
    decreases n, 1
  {
    if n.Executable? then 0
    else (if n.kind != Pipe && n.id in started then |n.nodes| else 0) + StartedOperandsAll(n.nodes, started)
  }

  ghost function StartedOperandsAll(nodes: seq<Node>, started: set<nat>): nat
    decreases nodes, 0
  {
    if nodes == [] then 0 else StartedOperands(nodes[0], started) + StartedOperandsAll(nodes[1..], started)
  }

  /** The table of appender descriptors never outgrows its allocation. */
  lemma {:induction false} TableFits(w: Wiring, n: Node, started: set<nat>)
    requires Wired(w, n)
    ensures |Gather(n, Among(TableFn(w), started))| == StartedOperands(n, started)
    ensures StartedOperands(n, started) <= MaxFds(n)
    decreases n, 1
  {
    if n.Operands? {
      TableFitsAll(w, n.nodes, started);
    }
  }

  lemma {:induction false} TableFitsAll(w: Wiring, nodes: seq<Node>, started: set<nat>)
    requires forall i :: 0 <= i < |nodes| ==> Wired(w, nodes[i])
    ensures |GatherAll(nodes, Among(TableFn(w), started))| == StartedOperandsAll(nodes, started)
    ensures StartedOperandsAll(nodes, started) <= MaxFdsAll(nodes)
    decreases nodes, 0
  {
    if nodes != [] {
      TableFits(w, nodes[0], started);
      TableFitsAll(w, nodes[1..], started);
    }
  }

  /** The operators that have an appender. */
  ghost function Appending(n: Node): multiset<nat> {
    if Appends(n) then multiset{n.id} else multiset{}
  }

  /** The allocation, exactly: two for each operand of an operator that appends, and two for each such
      operator. */
  lemma {:induction false} TableSize(w: Wiring, n: Node)
    requires Wired(w, n)
    ensures MaxFds(n) == 2 * |Gather(n, TableFn(w))| + 2 * |Gather(n, Appending)|
    decreases n, 1
  {
    if n.Operands? {
      TableSizeAll(w, n.nodes);
    }
  }

  lemma {:induction false} TableSizeAll(w: Wiring, nodes: seq<Node>)
    requires forall i :: 0 <= i < |nodes| ==> Wired(w, nodes[i])
    ensures MaxFdsAll(nodes) == 2 * |GatherAll(nodes, TableFn(w))| + 2 * |GatherAll(nodes, Appending)|
    decreases nodes, 0
  {
    if nodes != [] {
      TableSize(w, nodes[0]);
      TableSizeAll(w, nodes[1..]);
    }
  }

  // ---- the parent's pipe ends

  /** Some started process uses pipe p. */
  ghost predicate Touches(started: multiset<Tap>, p: nat) {
    Tap(PipeStream(p), ReadEnd) in started || Tap(PipeStream(p), WriteEnd) in started
  }

  /** Pipe-end accounting, `started` being the taps of the started processes: a pipe is
      initialised exactly when a process that uses it has started, and the parent holds an end of
      it open exactly while no process that uses this end has started. */
  ghost predicate PipesAccounted(started: multiset<Tap>, initialized: set<nat>, openEnds: set<Tap>) {
    && (forall p :: p in initialized <==> Touches(started, p))
    && (forall t: Tap :: t in openEnds <==> t.stream.PipeStream? && t.stream.pipe in initialized && t !in started)
  }

  ghost function PipesOf(taps: multiset<Tap>): set<nat> {
    set t: Tap | t in taps && t.stream.PipeStream? :: t.stream.pipe
  }

  lemma TapTouches(taps: multiset<Tap>, t: Tap)
    requires t in taps && t.stream.PipeStream?
    ensures Touches(taps, t.stream.pipe) && t.stream.pipe in PipesOf(taps)
  {
    var p := t.stream.pipe;
    match t.end
    case ReadEnd => assert t == Tap(PipeStream(p), ReadEnd);
    case WriteEnd => assert t == Tap(PipeStream(p), WriteEnd);
  }

  lemma TouchedPipes(taps: multiset<Tap>, p: nat)
    ensures p in PipesOf(taps) <==> Touches(taps, p)
  {
    if p in PipesOf(taps) {
      var t :| t in taps && t.stream.PipeStream? && t.stream.pipe == p;
      TapTouches(taps, t);
    }
    if Touches(taps, p) {
      TapTouches(taps, Tap(PipeStream(p), if Tap(PipeStream(p), ReadEnd) in taps then ReadEnd else WriteEnd));
    }
  }

  /** Starting a process whose pipes get opened where needed and whose own ends get closed keeps
      the accounts. */
  lemma StartKeepsAccounts(started: multiset<Tap>, own: multiset<Tap>, i0: set<nat>, o0: set<Tap>, i1: set<nat>,
      o1: set<Tap>)
    requires PipesAccounted(started, i0, o0)
    requires i1 == i0 + PipesOf(own)
    requires forall t: Tap :: t in o1 <==>
               t !in own && (t in o0 || (t.stream.PipeStream? && t.stream.pipe in i1 && t.stream.pipe !in i0))
    ensures PipesAccounted(started + own, i1, o1)
  {
    forall p ensures p in i1 <==> Touches(started + own, p) {
      TouchedPipes(own, p);
    }
    forall t: Tap | t.stream.PipeStream? && t in started ensures t.stream.pipe in i0 {
      TapTouches(started, t);
    }
  }

  /** With linear wiring the ends of a process that is about to start are untouched. */
  lemma OwnEndsUntouched(w: Wiring, n: Node, p: seq<nat>, started: set<nat>, t: Tap)
    requires Distinct(n) && ValidPath(n, p) && At(n, p).id !in started && Linear(w, n)
    requires t in TapsOf(w, At(n, p)) && t.stream.PipeStream?
    ensures t !in Gather(n, Among(TapsFn(w), started))
    ensures TapsOf(w, At(n, p))[t] == 1
  {
    GatherAdd(n, p, TapsFn(w), started);
    AmongAtMost(n, TapsFn(w), started + {At(n, p).id});
    assert Gather(n, Among(TapsFn(w), started + {At(n, p).id}))[t] <= Gather(n, TapsFn(w))[t];
  }
}
