/** The engine's books: what its variables must say once a given set of nodes has been started. */
module Accounting {
  import opened Nodes
  import opened Streams

  /** What a forked process was forked for. */
  datatype Child = ExecutableChild(id: nat) | AppenderChild

  /** `calls` names exactly the pipes in `initialized`, each once. */
  ghost predicate OpenedOnce(calls: multiset<nat>, initialized: set<nat>) {
    forall p :: calls[p] == if p in initialized then 1 else 0
  }

  /** The processes whose appender closes its output pipe twice. */
  ghost function PipedOutputFn(w: Wiring): Node -> multiset<nat> {
    (n: Node) => if Appends(n) && n.id in w.appender && w.appender[n.id].to.PipeStream?
      then multiset{n.id} else multiset{}
  }

  ghost predicate OnlyPipes(openEnds: set<Tap>) {
    forall t :: t in openEnds ==> t.stream.PipeStream?
  }

  /** The ends of a process about to start are tapped once and still open if their pipe exists. */
  ghost predicate ReadyToStart(own: multiset<Tap>, initialized: set<nat>, openEnds: set<Tap>) {
    forall t: Tap :: t in own && t.stream.PipeStream? ==>
      own[t] == 1 && (t.stream.pipe in initialized ==> t in openEnds)
  }

  ghost function PipesIn(streams: seq<Stream>): set<nat> {
    set s | s in streams && s.PipeStream? :: s.pipe
  }

  lemma PipesInSnoc(streams: seq<Stream>, s: Stream)
    ensures PipesIn(streams + [s]) == PipesIn(streams) + (if s.PipeStream? then {s.pipe} else {})
  {
    assert forall x :: x in streams + [s] <==> x in streams || x == s;
  }

  /** The pipes among the first k + 1 of an appender's streams. */
  lemma PipesInNext(to: Stream, from: seq<Stream>, k: nat)
    requires k < |from|
    ensures PipesIn([to] + from[..k + 1])
         == PipesIn([to] + from[..k]) + (if from[k].PipeStream? then {from[k].pipe} else {})
  {
    hide PipesIn;
    PipesInSnoc([to] + from[..k], from[k]);
    assert [to] + from[..k + 1] == [to] + from[..k] + [from[k]];
  }

  lemma PipesInStart(to: Stream, from: seq<Stream>)
    ensures PipesIn([to] + from[..0]) == if to.PipeStream? then {to.pipe} else {}
    ensures PipesIn([to] + from[..|from|]) == PipesIn([to] + from)
  {
    PipesInSnoc([], to);
    assert [] + [to] == [to] + from[..0] && from[..|from|] == from;
  }

  /** An end of a pipe that has been opened in between. */
  ghost predicate NewEnd(t: Tap, before: set<nat>, after: set<nat>) {
    t.stream.PipeStream? && t.stream.pipe in after && t.stream.pipe !in before
  }

  /** Appenders read pipes; if they write a descriptor, it is standard output. */
  ghost predicate AppenderShape(a: Appender) {
    && (forall s :: s in a.from ==> s.PipeStream?)
    && (a.to.Descriptor? ==> a.to.fd == STDOUT_FILENO)
  }

  /** Pipes have been opened where needed. */
  ghost predicate Opened(i0: set<nat>, o0: set<Tap>, i1: set<nat>, o1: set<Tap>) {
    forall t: Tap :: t in o1 <==> t in o0 || NewEnd(t, i0, i1)
  }

  /** Pipes have been opened where needed and the process's own ends closed. */
  ghost predicate Settled(own: multiset<Tap>, i0: set<nat>, o0: set<Tap>, i1: set<nat>, o1: set<Tap>) {
    forall t: Tap :: t in o1 <==> t !in own && (t in o0 || NewEnd(t, i0, i1))
  }

  ghost function WithoutEnds(openEnds: set<Tap>, stdIn: Stream, stdOut: Stream): set<Tap> {
    openEnds - {Tap(stdIn, ReadEnd), Tap(stdOut, WriteEnd)}
  }

  /** The ends of an executable, between opening and closing them. */
  lemma ExecutableEnds(stdIn: Stream, stdOut: Stream, i0: set<nat>, o0: set<Tap>, i1: set<nat>, o1: set<Tap>)
    requires ReadyToStart(multiset{Tap(stdIn, ReadEnd), Tap(stdOut, WriteEnd)}, i0, o0) && OnlyPipes(o0)
    requires i1 == i0 + PipesIn([stdIn, stdOut]) && Opened(i0, o0, i1, o1)
    ensures stdIn.PipeStream? ==> Tap(stdIn, ReadEnd) in o1
    ensures stdOut.PipeStream? ==> Tap(stdOut, WriteEnd) in o1
    ensures OnlyPipes(o1)
    ensures var own := multiset{Tap(stdIn, ReadEnd), Tap(stdOut, WriteEnd)};
            i1 == i0 + PipesOf(own) && Settled(own, i0, o0, i1, WithoutEnds(o1, stdIn, stdOut))
  {
    var own := multiset{Tap(stdIn, ReadEnd), Tap(stdOut, WriteEnd)};
    assert Tap(stdIn, ReadEnd) in own && Tap(stdOut, WriteEnd) in own;
    assert stdIn in [stdIn, stdOut] && stdOut in [stdIn, stdOut];
  }

  // ---- a run's surroundings and the books

  /** The tree, its wiring, the pid of the i-th process the engine forks, and what node->pid of each
      executable holds before a fork sets it. */
  datatype World = World(tree: Node, wiring: Wiring, forkPid: nat -> int, garbage: map<nat, int>)

  /** Assumptions: a wired tree of distinct nodes in which no pipe end is used twice; every fork
      gives a new pid, different from whatever an unstarted node's pid field holds. */
  ghost predicate GoodWorld(e: World) {
    WellFormed(e.tree) && Wired(e.wiring, e.tree) && Linear(e.wiring, e.tree) && FreshPids(e)
  }

  ghost predicate FreshPids(e: World) {
    && e.garbage.Keys == Execs(e.tree)
    && (forall i, j :: e.forkPid(i) == e.forkPid(j) ==> i == j)
    && (forall i :: e.forkPid(i) > 0)
    && (forall x :: x in e.garbage ==> e.garbage[x] != -1)
    && (forall x, i :: x in e.garbage ==> e.garbage[x] != e.forkPid(i))
  }

  /** The engine's variables, apart from the exit codes. `keys` are the nodes that have a result,
      `childOf` is the index in `children` of a started executable, `reaped` are the executables
      whose exit has been handled. */
  datatype Books = Books(keys: set<nat>, started: seq<nat>,
    initialized: set<nat>, openEnds: set<Tap>, pipeCalls: multiset<nat>, failedCloses: nat,
    entries: seq<Tap>,
    children: seq<Child>, pid: map<nat, int>, childOf: map<nat, nat>, reaped: set<nat>, toWait: int)

  ghost predicate BooksOk(e: World, b: Books) {
    StartsOk(b) && PipesOk(e, b) && TableOk(e, b) && ChildrenOk(e, b) && PidsOk(e, b) && WaitOk(b)
  }

  /** Start-once: every node that has a result has been started once, no other node ever. */
  ghost predicate StartsOk(b: Books) {
    forall x :: multiset(b.started)[x] == if x in b.keys then 1 else 0
  }

  lemma StartedOnce(b: Books, x: nat, c: Books)
    requires StartsOk(b) && x !in b.keys && c.keys == b.keys + {x} && c.started == b.started + [x]
    ensures StartsOk(c)
  {
  }

  /** End-once: every operator with an exit code has reported its end once, no other node ever. */
  ghost predicate ReportsOk(tree: Node, result: map<nat, Option<int>>, reports: seq<nat>) {
    forall x :: multiset(reports)[x] == if x in result && result[x].Some? && x !in Execs(tree) then 1 else 0
  }

  /** The order in which starting a node starts what is below it: a Pipe starts all its operands,
      any other operator the first one. */
  ghost function StartOrder(n: Node): seq<nat>
    decreases n, 1
  {
    match n
    case Executable(id, _) => [id]
    case Operands(id, kind, nodes) =>
      if kind == Pipe then [id] + StartOrderAll(nodes)
      else if nodes == [] then [id]
      else [id] + StartOrder(nodes[0])
  }

  ghost function StartOrderAll(nodes: seq<Node>): seq<nat>
    decreases nodes, 0
  {
    if nodes == [] then [] else StartOrder(nodes[0]) + StartOrderAll(nodes[1..])
  }

  /** The processes forked meanwhile: an operator's appender before its first operand. */
  ghost function ForkOrder(n: Node): seq<Child>
    decreases n, 1
  {
    match n
    case Executable(id, _) => [ExecutableChild(id)]
    case Operands(_, kind, nodes) =>
      if kind == Pipe then ForkOrderAll(nodes)
      else if nodes == [] then [AppenderChild]
      else [AppenderChild] + ForkOrder(nodes[0])
  }

  ghost function ForkOrderAll(nodes: seq<Node>): seq<Child>
    decreases nodes, 0
  {
    if nodes == [] then [] else ForkOrder(nodes[0]) + ForkOrderAll(nodes[1..])
  }

  lemma {:induction false} StartOrderSnoc(nodes: seq<Node>, k: nat)
    requires k < |nodes|
    ensures StartOrderAll(nodes[..k + 1]) == StartOrderAll(nodes[..k]) + StartOrder(nodes[k])
    ensures ForkOrderAll(nodes[..k + 1]) == ForkOrderAll(nodes[..k]) + ForkOrder(nodes[k])
  {
    hide StartOrder, ForkOrder;
    if k == 0 {
      assert nodes[..1][1..] == [] && nodes[..0] == [];
    } else {
      StartOrderSnoc(nodes[1..], k - 1);
      assert nodes[..k + 1][1..] == nodes[1..][..k] && nodes[..k][1..] == nodes[1..][..k - 1];
    }
  }

  /** A Pipe's first k operands have been started, beginning with `started` and `children`. */
  ghost predicate InStartOrder(n: Node, k: nat, started: seq<nat>, children: seq<Child>,
    started': seq<nat>, children': seq<Child>)
    requires n.Operands? && k <= |n.nodes|
  {
    && started' == started + [n.id] + StartOrderAll(n.nodes[..k])
    && children' == children + ForkOrderAll(n.nodes[..k])
  }

  lemma NoneInOrder(n: Node, started: seq<nat>, children: seq<Child>)
    requires n.Operands?
    ensures InStartOrder(n, 0, started, children, started + [n.id], children)
  {
  }

  lemma NextInOrder(n: Node, k: nat, started: seq<nat>, children: seq<Child>, started': seq<nat>, children': seq<Child>)
    requires n.Operands? && k < |n.nodes| && InStartOrder(n, k, started, children, started', children')
    ensures InStartOrder(n, k + 1, started, children,
                         started' + StartOrder(n.nodes[k]), children' + ForkOrder(n.nodes[k]))
  {
    hide StartOrder, StartOrderAll, ForkOrder, ForkOrderAll;
    StartOrderSnoc(n.nodes, k);
  }

  lemma AllInOrder(n: Node, started: seq<nat>, children: seq<Child>, started': seq<nat>, children': seq<Child>)
    requires n.Operands? && n.kind == Pipe && InStartOrder(n, |n.nodes|, started, children, started', children')
    ensures started' == started + StartOrder(n) && children' == children + ForkOrder(n)
  {
    assert n.nodes[..|n.nodes|] == n.nodes;
  }

  lemma FirstStartOrder(n: Node)
    requires Appends(n) && |n.nodes| > 0
    ensures StartOrder(n) == [n.id] + StartOrder(n.nodes[0])
    ensures ForkOrder(n) == [AppenderChild] + ForkOrder(n.nodes[0])
  {
  }

  lemma FirstOfAll(nodes: seq<Node>)
    ensures StartOrderAll([]) == [] && ForkOrderAll([]) == []
    ensures nodes != [] ==> StartOrderAll(nodes) == StartOrder(nodes[0]) + StartOrderAll(nodes[1..])
    ensures nodes != [] ==> ForkOrderAll(nodes) == ForkOrder(nodes[0]) + ForkOrderAll(nodes[1..])
  {
  }

  lemma {:induction false} AllOrders(a: seq<Node>, b: seq<Node>)
    ensures StartOrderAll(a + b) == StartOrderAll(a) + StartOrderAll(b)
    ensures ForkOrderAll(a + b) == ForkOrderAll(a) + ForkOrderAll(b)
  {
    hide StartOrder, ForkOrder, StartOrderAll, ForkOrderAll;
    FirstOfAll(a);
    if a == [] {
      assert a + b == b;
    } else {
      AllOrders(a[1..], b);
      FirstOfAll(a + b);
      assert (a + b)[1..] == a[1..] + b;
    }
  }

  /** A Pipe forks what its operands fork, operand after operand, and has no process of its own. */
  lemma PipeForks(id: nat, a: seq<Node>, x: Node, b: seq<Node>)
    ensures ForkOrder(Operands(id, Pipe, [])) == []
    ensures ForkOrder(Operands(id, Pipe, [x])) == ForkOrder(x)
    ensures ForkOrder(Operands(id, Pipe, a + b)) == ForkOrder(Operands(id, Pipe, a)) + ForkOrder(Operands(id, Pipe, b))
    ensures StartOrder(Operands(id, Pipe, [x])) == [id] + StartOrder(x)
    ensures StartOrder(Operands(id, Pipe, a + b))
         == StartOrder(Operands(id, Pipe, a)) + StartOrder(Operands(id, Pipe, b))[1..]
  {
    AllOrders(a, b);
    assert [x][1..] == [];
    assert ForkOrderAll([x]) == ForkOrder(x) && StartOrderAll([x]) == StartOrder(x);
  }

  /** Every step of the path goes to an operand of a Pipe or to a first operand. */
  ghost predicate AtOnce(n: Node, p: seq<nat>)
    requires ValidPath(n, p)
  {
    p == [] || ((n.kind == Pipe || p[0] == 0) && AtOnce(n.nodes[p[0]], p[1..]))
  }

  ghost predicate ForkedAt(n: Node, p: seq<nat>, x: nat) {
    ValidPath(n, p) && At(n, p).Executable? && At(n, p).id == x && AtOnce(n, p)
  }

  /** Which executables are forked when a node is started: those at such a path. */
  lemma {:induction false} ForkedAtOnce(n: Node, x: nat)
    ensures ExecutableChild(x) in ForkOrder(n) <==> exists p :: ForkedAt(n, p, x)
    decreases n, 1
  {
    hide ForkOrderAll, ForkedAt;
    if n.Operands? {
      if n.kind == Pipe {
        AllForkedAtOnce(n.nodes, x);
      } else if n.nodes != [] {
        ForkedAtOnce(n.nodes[0], x);
      }
    }
    ForkedBelow(n, x);
  }

  /** The path of an executable begins with the position of the operand it is in. */
  lemma ForkedBelow(n: Node, x: nat)
    ensures n.Executable? ==> ((exists p :: ForkedAt(n, p, x)) <==> n.id == x)
    ensures n.Operands? ==>
              ((exists p :: ForkedAt(n, p, x)) <==>
               exists i, q :: 0 <= i < |n.nodes| && (n.kind == Pipe || i == 0) && ForkedAt(n.nodes[i], q, x))
  {
    if n.Executable? {
      assert n.id == x ==> ForkedAt(n, [], x);
    } else {
      if i, q :| 0 <= i < |n.nodes| && (n.kind == Pipe || i == 0) && ForkedAt(n.nodes[i], q, x) {
        var p := [i] + q;
        assert p[1..] == q;
        assert ForkedAt(n, p, x);
      }
      if p :| ForkedAt(n, p, x) {
        assert ForkedAt(n.nodes[p[0]], p[1..], x);
      }
    }
  }

  lemma {:induction false} AllForkedAtOnce(nodes: seq<Node>, x: nat)
    ensures ExecutableChild(x) in ForkOrderAll(nodes) <==>
              exists i, p :: 0 <= i < |nodes| && ForkedAt(nodes[i], p, x)
    decreases nodes, 0
  {
    hide ForkOrder, ForkedAt;
    if nodes != [] {
      ForkedAtOnce(nodes[0], x);
      AllForkedAtOnce(nodes[1..], x);
      assert forall i :: 0 < i < |nodes| ==> nodes[i] == nodes[1..][i - 1];
    }
  }

  /** A new result without an exit code. */
  lemma ReportsNew(tree: Node, result: map<nat, Option<int>>, reports: seq<nat>, x: nat)
    requires ReportsOk(tree, result, reports) && x !in result
    ensures ReportsOk(tree, result[x := None], reports)
  {
  }

  /** An exit code of an executable. */
  lemma ReportsExit(tree: Node, result: map<nat, Option<int>>, reports: seq<nat>, x: nat, code: int)
    requires ReportsOk(tree, result, reports) && x in Execs(tree)
    ensures ReportsOk(tree, result[x := Some(code)], reports)
  {
    hide Execs;
  }

  /** The end of an operator that had not ended. */
  lemma ReportsEnd(tree: Node, result: map<nat, Option<int>>, reports: seq<nat>, x: nat, code: int)
    requires ReportsOk(tree, result, reports) && x in result && result[x].None? && x !in Execs(tree)
    ensures ReportsOk(tree, result[x := Some(code)], reports + [x])
  {
    hide Execs;
  }

  /** Pipes: initialised exactly when a user has started, opened once, each end held exactly while
      its user has not started; a close fails only once per appender that writes a pipe. */
  ghost predicate PipesOk(e: World, b: Books) {
    && PipesAccounted(Gather(e.tree, Among(TapsFn(e.wiring), b.keys)), b.initialized, b.openEnds)
    && OpenedOnce(b.pipeCalls, b.initialized)
    && b.failedCloses == |Gather(e.tree, Among(PipedOutputFn(e.wiring), b.keys))|
  }

  /** The table of appender descriptors holds the write ends of the started appenders. */
  ghost predicate TableOk(e: World, b: Books) {
    multiset(b.entries) == Gather(e.tree, Among(TableFn(e.wiring), b.keys))
  }

  /** There is exactly one child process per started executable. */
  ghost predicate ChildrenOk(e: World, b: Books) {
    && b.keys <= Ids(e.tree)
    && b.childOf.Keys == Execs(e.tree) * b.keys
    && (forall x :: x in b.childOf ==> b.childOf[x] < |b.children| && b.children[b.childOf[x]] == ExecutableChild(x))
    && (forall i :: 0 <= i < |b.children| && b.children[i].ExecutableChild? ==>
          b.children[i].id in b.childOf && b.childOf[b.children[i].id] == i)
  }

  /** A started executable has the pid of its process, any other still has the garbage it had. */
  ghost predicate PidsOk(e: World, b: Books) {
    && b.pid.Keys == e.garbage.Keys
    && forall x :: x in e.garbage ==> b.pid[x] == if x in b.childOf then e.forkPid(b.childOf[x]) else e.garbage[x]
  }

  /** toWait is the number of started executables whose exit has not been handled. */
  ghost predicate WaitOk(b: Books) {
    b.reaped <= b.childOf.Keys && b.toWait == |b.childOf.Keys - b.reaped|
  }

  /** The kernel has reported exactly the exits that have been handled. */
  ghost predicate WaitedOk(b: Books, waited: set<nat>) {
    && (forall i :: i in waited ==> i < |b.children|)
    && (forall i :: 0 <= i < |b.children| && b.children[i].ExecutableChild? ==>
          (i in waited <==> b.children[i].id in b.reaped))
  }

  /** New children have not been waited for. */
  lemma WaitedAfterStarts(e: World, b: Books, c: Books, waited: set<nat>)
    requires ChildrenOk(e, b) && ChildrenOk(e, c) && WaitOk(b) && WaitedOk(b, waited)
    requires b.children <= c.children && c.reaped == b.reaped
    ensures WaitedOk(c, waited)
  {
    hide Ids, Execs;
    forall x | x in b.childOf ensures x in c.childOf && c.childOf[x] == b.childOf[x] {
      assert c.children[b.childOf[x]] == b.children[b.childOf[x]];
    }
  }

  /** What the pid reported by wait3 says: a pid of the tree belongs to the executable the child
      was forked for; the pid of an appender, and -1, belong to nobody. */
  lemma PidMeans(e: World, b: Books, i: nat, x: nat)
    requires FreshPids(e) && ChildrenOk(e, b) && PidsOk(e, b) && i < |b.children| && x in Execs(e.tree)
    ensures b.pid[x] == e.forkPid(i) <==> b.children[i] == ExecutableChild(x)
    ensures b.pid[x] != -1
  {
  }

  /** An exit has been handled. */
  lemma OneLessToWait(b: Books, c: Books, x: nat)
    requires WaitOk(b) && x in b.childOf && x !in b.reaped
    requires c.childOf == b.childOf && c.reaped == b.reaped + {x} && c.toWait == b.toWait - 1
    ensures WaitOk(c)
  {
    assert b.childOf.Keys - b.reaped == (c.childOf.Keys - c.reaped) + {x};
  }

  /** Before anything has been started. */
  lemma EmptyBooks(e: World, b: Books)
    requires b.keys == {} && b.started == [] && b.initialized == {} && b.openEnds == {}
    requires b.pipeCalls == multiset{} && b.failedCloses == 0
    requires b.entries == [] && b.children == [] && b.pid == e.garbage && b.childOf == map[] && b.reaped == {}
    requires b.toWait == 0
    ensures BooksOk(e, b)
  {
    GatherNothing(e.tree, TapsFn(e.wiring));
    GatherNothing(e.tree, TableFn(e.wiring));
    GatherNothing(e.tree, PipedOutputFn(e.wiring));
  }

  // ---- starting a process

  lemma ExecutableWired(w: Wiring, n: Node)
    requires Wired(w, n) && n.Executable?
    ensures n.id in w.stdIn && n.id in w.stdOut
    ensures TapsOf(w, n) == multiset{Tap(w.stdIn[n.id], ReadEnd), Tap(w.stdOut[n.id], WriteEnd)}
    ensures TableFn(w)(n) == multiset{} && PipedOutputFn(w)(n) == multiset{}
  {
  }

  lemma AppenderWired(w: Wiring, n: Node)
    requires Wired(w, n) && Appends(n)
    ensures n.id in w.appender && |w.appender[n.id].from| == |n.nodes|
    ensures AppenderShape(w.appender[n.id])
    ensures TapsOf(w, n) == AppenderTaps(w.appender[n.id])
    ensures TableFn(w)(n) == multiset(Taps(w.appender[n.id].from, WriteEnd))
    ensures |PipedOutputFn(w)(n)| == if w.appender[n.id].to.PipeStream? then 1 else 0
  {
  }

  /** The ends of an unstarted process are ready. */
  lemma StartReady(e: World, b: Books, p: seq<nat>)
    requires GoodWorld(e) && PipesOk(e, b) && ValidPath(e.tree, p) && At(e.tree, p).id !in b.keys
    ensures ReadyToStart(TapsOf(e.wiring, At(e.tree, p)), b.initialized, b.openEnds) && OnlyPipes(b.openEnds)
  {
    var own := TapsOf(e.wiring, At(e.tree, p));
    forall t: Tap | t in own && t.stream.PipeStream?
      ensures own[t] == 1 && (t.stream.pipe in b.initialized ==> t in b.openEnds)
    {
      OwnEndsUntouched(e.wiring, e.tree, p, b.keys, t);
    }
  }

  /** A process has been started whose pipes were opened where needed and whose own ends were
      closed: the pipe accounts include it. */
  lemma PipesAfterStart(e: World, b: Books, p: seq<nat>, c: Books)
    requires GoodWorld(e) && PipesOk(e, b) && ValidPath(e.tree, p) && At(e.tree, p).id !in b.keys
    requires c.keys == b.keys + {At(e.tree, p).id}
    requires c.initialized == b.initialized + PipesOf(TapsOf(e.wiring, At(e.tree, p)))
    requires Settled(TapsOf(e.wiring, At(e.tree, p)), b.initialized, b.openEnds, c.initialized, c.openEnds)
    requires OpenedOnce(c.pipeCalls, c.initialized)
    requires c.failedCloses == b.failedCloses + |PipedOutputFn(e.wiring)(At(e.tree, p))|
    ensures PipesOk(e, c)
  {
    GatherAdd(e.tree, p, TapsFn(e.wiring), b.keys);
    GatherAdd(e.tree, p, PipedOutputFn(e.wiring), b.keys);
    StartKeepsAccounts(Gather(e.tree, Among(TapsFn(e.wiring), b.keys)), TapsOf(e.wiring, At(e.tree, p)),
                       b.initialized, b.openEnds, c.initialized, c.openEnds);
  }

  lemma TableAfterStart(e: World, b: Books, p: seq<nat>, c: Books)
    requires GoodWorld(e) && TableOk(e, b) && ValidPath(e.tree, p) && At(e.tree, p).id !in b.keys
    requires c.keys == b.keys + {At(e.tree, p).id}
    requires multiset(c.entries) == multiset(b.entries) + TableFn(e.wiring)(At(e.tree, p))
    ensures TableOk(e, c)
  {
    GatherAdd(e.tree, p, TableFn(e.wiring), b.keys);
  }

  // ---- an executable

  /** At the fork an executable's ends are open. */
  lemma ExecutableReady(e: World, b: Books, p: seq<nat>, i1: set<nat>, o1: set<Tap>)
    requires GoodWorld(e) && BooksOk(e, b)
    requires ValidPath(e.tree, p) && At(e.tree, p).Executable? && At(e.tree, p).id !in b.keys
    requires At(e.tree, p).id in e.wiring.stdIn && At(e.tree, p).id in e.wiring.stdOut
    requires var stdIn, stdOut := e.wiring.stdIn[At(e.tree, p).id], e.wiring.stdOut[At(e.tree, p).id];
             i1 == b.initialized + PipesIn([stdIn, stdOut]) && Opened(b.initialized, b.openEnds, i1, o1)
    ensures e.wiring.stdIn[At(e.tree, p).id].PipeStream? ==> Tap(e.wiring.stdIn[At(e.tree, p).id], ReadEnd) in o1
    ensures e.wiring.stdOut[At(e.tree, p).id].PipeStream? ==> Tap(e.wiring.stdOut[At(e.tree, p).id], WriteEnd) in o1
    ensures OnlyPipes(o1)
  {
    WiredAt(e.wiring, e.tree, p);
    ExecutableWired(e.wiring, At(e.tree, p));
    StartReady(e, b, p);
    ExecutableEnds(e.wiring.stdIn[At(e.tree, p).id], e.wiring.stdOut[At(e.tree, p).id], b.initialized,
                   b.openEnds, i1, o1);
  }

  /** The books after the executable x has been forked; o1 are the ends open at the fork. */
  ghost function AfterExecutable(e: World, b: Books, x: nat, o1: set<Tap>, calls: multiset<nat>): Books
    requires x in e.wiring.stdIn && x in e.wiring.stdOut
  {
    var stdIn, stdOut := e.wiring.stdIn[x], e.wiring.stdOut[x];
    b.(keys := b.keys + {x}, started := b.started + [x],
       initialized := b.initialized + PipesIn([stdIn, stdOut]), openEnds := WithoutEnds(o1, stdIn, stdOut),
         pipeCalls := calls,
       children := b.children + [ExecutableChild(x)], childOf := b.childOf[x := |b.children|],
       pid := b.pid[x := e.forkPid(|b.children|)], toWait := b.toWait + 1)
  }

  lemma ExecutableStarted(e: World, b: Books, p: seq<nat>, o1: set<Tap>, calls: multiset<nat>)
    requires GoodWorld(e) && BooksOk(e, b)
    requires ValidPath(e.tree, p) && At(e.tree, p).Executable? && At(e.tree, p).id !in b.keys
    requires At(e.tree, p).id in e.wiring.stdIn && At(e.tree, p).id in e.wiring.stdOut
    requires var c := AfterExecutable(e, b, At(e.tree, p).id, o1, calls);
             Opened(b.initialized, b.openEnds, c.initialized, o1) && OpenedOnce(calls, c.initialized)
    ensures BooksOk(e, AfterExecutable(e, b, At(e.tree, p).id, o1, calls))
  {
    hide StartsOk, PipesOk, TableOk, ChildrenOk, PidsOk, WaitOk, OpenedOnce, Opened, Wired, Linear, FreshPids;
    hide WithoutEnds, PipesIn;
    var n := At(e.tree, p);
    var c := AfterExecutable(e, b, n.id, o1, calls);
    WiredAt(e.wiring, e.tree, p);
    ExecutableWired(e.wiring, n);
    StartReady(e, b, p);
    ExecutableEnds(e.wiring.stdIn[n.id], e.wiring.stdOut[n.id], b.initialized, b.openEnds, c.initialized, o1);
    PipesAfterStart(e, b, p, c);
    TableAfterStart(e, b, p, c);
    ChildForked(e, b, p, c);
    PidSet(e, b, n.id, c);
    OneMoreToWait(b, n.id, c);
    StartedOnce(b, n.id, c);
  }

  lemma ChildForked(e: World, b: Books, p: seq<nat>, c: Books)
    requires GoodWorld(e) && ChildrenOk(e, b)
    requires ValidPath(e.tree, p) && At(e.tree, p).Executable? && At(e.tree, p).id !in b.keys
    requires c.keys == b.keys + {At(e.tree, p).id}
    requires c.children == b.children + [ExecutableChild(At(e.tree, p).id)]
    requires c.childOf == b.childOf[At(e.tree, p).id := |b.children|]
    ensures At(e.tree, p).id in Execs(e.tree) && At(e.tree, p).id !in b.childOf
    ensures ChildrenOk(e, c)
  {
    hide GoodWorld, Ids, Execs, At, ValidPath, Distinct, NonEmpty;
    AtFacts(e.tree, p);
  }

  lemma PidSet(e: World, b: Books, x: nat, c: Books)
    requires FreshPids(e) && x in Execs(e.tree) && PidsOk(e, b)
    requires c.childOf == b.childOf[x := |b.children|] && c.pid == b.pid[x := e.forkPid(|b.children|)]
    ensures PidsOk(e, c)
  {
  }

  lemma OneMoreToWait(b: Books, x: nat, c: Books)
    requires x !in b.childOf && WaitOk(b)
    requires c.childOf.Keys == b.childOf.Keys + {x} && c.reaped == b.reaped && c.toWait == b.toWait + 1
    ensures WaitOk(c)
  {
    assert c.childOf.Keys - c.reaped == (b.childOf.Keys - b.reaped) + {x};
  }

  // ---- an operator

  lemma OperatorBegun(e: World, b: Books, p: seq<nat>, c: Books)
    requires GoodWorld(e) && ChildrenOk(e, b)
    requires ValidPath(e.tree, p) && At(e.tree, p).Operands? && At(e.tree, p).id !in b.keys
    requires c.keys == b.keys + {At(e.tree, p).id} && c.childOf == b.childOf
    requires c.children == b.children || c.children == b.children + [AppenderChild]
    ensures ChildrenOk(e, c)
  {
    hide Linear, Wired, FreshPids, Ids, Execs, Distinct, NonEmpty, At, ValidPath;
    AtFacts(e.tree, p);
    OperatorIsNoExecutable(e.tree, p);
  }

  lemma NoProcess(w: Wiring, n: Node, initialized: set<nat>, openEnds: set<Tap>)
    requires n.Operands? && n.kind == Pipe
    ensures PipesOf(TapsOf(w, n)) == {} && TableFn(w)(n) == multiset{} && PipedOutputFn(w)(n) == multiset{}
    ensures Settled(TapsOf(w, n), initialized, openEnds, initialized, openEnds)
  {
  }

  /** A Pipe node is no process: only its result is new. */
  lemma PipeStarted(e: World, b: Books, p: seq<nat>)
    requires GoodWorld(e) && BooksOk(e, b)
    requires ValidPath(e.tree, p) && At(e.tree, p).id !in b.keys
    requires At(e.tree, p).Operands? && At(e.tree, p).kind == Pipe
    ensures BooksOk(e, b.(keys := b.keys + {At(e.tree, p).id}, started := b.started + [At(e.tree, p).id]))
  {
    hide ChildrenOk, TableOk, Gather, Among, Wired, Linear, FreshPids, OpenedOnce, PipesAccounted, Ids, Execs;
    hide WellFormed, ValidPath, At, TapsOf, PipesOf, Settled;
    var c := b.(keys := b.keys + {At(e.tree, p).id}, started := b.started + [At(e.tree, p).id]);
    NoProcess(e.wiring, At(e.tree, p), b.initialized, b.openEnds);
    PipesAfterStart(e, b, p, c);
    TableAfterStart(e, b, p, c);
    OperatorBegun(e, b, p, c);
    StartedOnce(b, At(e.tree, p).id, c);
  }

  /** Before the fork of an appender: its ends are ready and its entries fit into the table. */
  lemma AppenderReady(e: World, b: Books, p: seq<nat>)
    requires GoodWorld(e) && BooksOk(e, b)
    requires ValidPath(e.tree, p) && Appends(At(e.tree, p)) && At(e.tree, p).id !in b.keys
    ensures At(e.tree, p).id in e.wiring.appender
    ensures var a := e.wiring.appender[At(e.tree, p).id];
            AppenderShape(a) && ReadyToStart(AppenderTaps(a), b.initialized, b.openEnds)
    ensures OnlyPipes(b.openEnds) && OpenedOnce(b.pipeCalls, b.initialized)
    ensures |b.entries| + |e.wiring.appender[At(e.tree, p).id].from| <= MaxFds(e.tree)
  {
    WiredAt(e.wiring, e.tree, p);
    AppenderWired(e.wiring, At(e.tree, p));
    StartReady(e, b, p);
    GatherAdd(e.tree, p, TableFn(e.wiring), b.keys);
    TableFits(e.wiring, e.tree, b.keys + {At(e.tree, p).id});
    assert |multiset(b.entries)| == |b.entries|;
    assert |multiset(Taps(e.wiring.appender[At(e.tree, p).id].from, WriteEnd))| ==
             |e.wiring.appender[At(e.tree, p).id].from|;
  }

  /** The books after the appender of operator x has been forked. */
  ghost function AfterAppender(e: World, b: Books, x: nat, o1: set<Tap>, calls: multiset<nat>): Books
    requires x in e.wiring.appender
  {
    var a := e.wiring.appender[x];
    b.(keys := b.keys + {x}, started := b.started + [x],
       initialized := b.initialized + PipesOf(AppenderTaps(a)), openEnds := o1, pipeCalls := calls,
       failedCloses := b.failedCloses + (if a.to.PipeStream? then 1 else 0),
       entries := b.entries + Taps(a.from, WriteEnd), children := b.children + [AppenderChild])
  }

  lemma AppenderStarted(e: World, b: Books, p: seq<nat>, o1: set<Tap>, calls: multiset<nat>)
    requires GoodWorld(e) && BooksOk(e, b)
    requires ValidPath(e.tree, p) && Appends(At(e.tree, p)) && At(e.tree, p).id !in b.keys
    requires At(e.tree, p).id in e.wiring.appender
    requires var c := AfterAppender(e, b, At(e.tree, p).id, o1, calls);
             && Settled(AppenderTaps(e.wiring.appender[At(e.tree, p).id]), b.initialized, b.openEnds, c.initialized, o1)
             && OpenedOnce(calls, c.initialized)
    ensures BooksOk(e, AfterAppender(e, b, At(e.tree, p).id, o1, calls))
  {
    var c := AfterAppender(e, b, At(e.tree, p).id, o1, calls);
    WiredAt(e.wiring, e.tree, p);
    AppenderWired(e.wiring, At(e.tree, p));
    PipesAfterStart(e, b, p, c);
    TableAfterStart(e, b, p, c);
    OperatorBegun(e, b, p, c);
    StartedOnce(b, At(e.tree, p).id, c);
  }
}
