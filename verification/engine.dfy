/** The asynchronous execution engine (src/execute/execute.c). */
module Execution {
  import opened Nodes
  import opened Semantics
  import opened Climb
  import opened Streams
  import opened Lookups
  import opened Accounting

  ghost predicate OutputFile(t: Tap, a: Appender) {
    a.to.File? && t == Tap(a.to, WriteEnd)
  }

  lemma {:induction false} SingleOccurrences<T>(s: seq<T>, i: nat, j: nat)
    requires i < j < |s| && multiset(s)[s[i]] == 1
    ensures s[i] != s[j]
  {
    assert s == s[..i] + [s[i]] + s[i + 1..j] + [s[j]] + s[j + 1..];
  }

  lemma OneOperandAtLeast(n: Node)
    requires NonEmpty(n) && n.Operands?
    ensures |n.nodes| > 0
  {
  }

  /** An operator's first i operands have been started one after the other, from the results r0 on. */
  ghost predicate StartedUpTo(n: Node, i: nat, st: Status, r0: Results, r: Results)
    requires NonEmpty(n) && n.Operands? && i <= |n.nodes|
  {
    && n.id in r && r[n.id] == None && SameOff(Ids(n), r0, r)
    && (forall j :: 0 <= j < i ==> State(n.nodes[j], {}, st, r))
    && (forall j :: i <= j < |n.nodes| ==> Untouched(n.nodes[j], r))
  }

  /** An operator's own result is created before anything below it. */
  lemma ResultCreated(n: Node, st: Status, r: Results)
    requires WellFormed(n) && n.Operands? && Untouched(n, r)
    ensures n.id !in r && StartedUpTo(n, 0, st, r, r[n.id := None])
  {
    OperandsApart(n);
    assert n.id in Ids(n);
  }

  lemma NextUntouched(n: Node, i: nat, st: Status, r0: Results, r: Results)
    requires NonEmpty(n) && n.Operands? && i < |n.nodes| && StartedUpTo(n, i, st, r0, r)
    ensures NonEmpty(n.nodes[i]) && Untouched(n.nodes[i], r)
  {
  }

  /** The next operand has been started, the others keep their state. */
  lemma OneMoreStarted(n: Node, i: nat, st: Status, r0: Results, r: Results, q: Results)
    requires WellFormed(n) && n.Operands? && i < |n.nodes| && StartedUpTo(n, i, st, r0, r)
    requires State(n.nodes[i], {}, st, q) && SameOff(Ids(n.nodes[i]), r, q)
    ensures StartedUpTo(n, i + 1, st, r0, q)
  {
    OperandsApart(n);
    forall j | 0 <= j < i ensures State(n.nodes[j], {}, st, q) {
      StateLocal(n.nodes[j], {}, {}, st, r, q);
    }
  }

  /** A Pipe has been started once all its operands have, any other operator with the first one. */
  lemma OperatorStarted(n: Node, i: nat, st: Status, r0: Results, r: Results)
    requires WellFormed(n) && n.Operands? && i == (if n.kind == Pipe then |n.nodes| else 1)
    requires i <= |n.nodes| && StartedUpTo(n, i, st, r0, r)
    ensures State(n, {}, st, r) && SameOff(Ids(n), r0, r)
  {
    NothingDone(n, {}, st);
    NothingDone(n.nodes[0], {}, st);
  }

  lemma FreshExecutable(n: Node, st: Status, r: Results)
    requires n.Executable? && Untouched(n, r)
    ensures n.id !in r && State(n, {}, st, r[n.id := None]) && SameOff(Ids(n), r, r[n.id := None])
  {
    assert n.id in Ids(n);
  }

  lemma AllPidsKnown(e: World, b: Books)
    requires GoodWorld(e) && BooksOk(e, b)
    ensures Execs(e.tree) <= b.pid.Keys
  {
  }

  /** What a return of wait3 means: an executable is found exactly if its process has exited. */
  lemma WokenUp(e: World, b: Books, choice: nat, waited: set<nat>, pid: int, found: bool, x: nat)
    requires GoodWorld(e) && BooksOk(e, b) && WaitedOk(b, waited)
    requires pid == if choice < |b.children| && choice !in waited then e.forkPid(choice) else -1
    requires Execs(e.tree) <= b.pid.Keys
    requires found <==> exists y :: y in Execs(e.tree) && b.pid[y] == pid
    requires found ==> x in Execs(e.tree) && b.pid[x] == pid
    ensures found <==> choice < |b.children| && choice !in waited && b.children[choice].ExecutableChild?
    ensures found ==> x == b.children[choice].id && x in b.childOf && x in b.keys && x !in b.reaped
  {
    hide PipesOk, TableOk, WellFormed, Wired, Linear;
    if choice < |b.children| && choice !in waited && b.children[choice].ExecutableChild? {
      PidMeans(e, b, choice, b.children[choice].id);
    }
    if found {
      PidMeans(e, b, if choice < |b.children| then choice else 0, x);
    }
  }

  /** Recording the exit code of a started executable is the first midpoint of the climb. */
  lemma ExitRecorded(n: Node, p: seq<nat>, e: set<nat>, st: Status, r: Results)
    requires WellFormed(n) && State(n, e, st, r) && ValidPath(n, p) && At(n, p).Executable?
    requires At(n, p).id in Execs(n) && At(n, p).id in r && At(n, p).id !in e
    ensures var x := At(n, p).id; Midway(n, p, e, e + {x}, st, r[x := Some(st(x))]) && x in Live(n, e, st)
    ensures var x := At(n, p).id; p == [] ==> State(n, e + {x}, st, r[x := Some(st(x))])
  {
    LiveIsStarted(n, e, st, r);
    ExitIsMidway(n, p, e, st, r);
  }

  /** The books after the exit of executable x, child number `choice`, has been handled. */
  lemma WaitedAfterReap(e: World, b: Books, c: Books, choice: nat, waited: set<nat>, x: nat)
    requires BooksOk(e, b) && BooksOk(e, c) && WaitedOk(b, waited)
    requires choice < |b.children| && b.children[choice] == ExecutableChild(x) && x !in b.reaped
    requires b.children <= c.children && c.reaped == b.reaped
    ensures var d := c.(reaped := c.reaped + {x}, toWait := c.toWait - 1);
            BooksOk(e, d) && WaitedOk(d, waited + {choice})
  {
    hide PipesOk, TableOk, PidsOk, ChildrenOk, WaitOk, WaitedOk;
    var d := c.(reaped := c.reaped + {x}, toWait := c.toWait - 1);
    WaitedAfterStarts(e, b, c, waited);
    assert c.children[choice] == ExecutableChild(x);
    ReapedChild(e, c, choice, waited, x);
    OneLessToWait(c, d, x);
    assert ChildrenOk(e, d) by { ChildrenOnly(e, c, d); }
    assert PipesOk(e, d) && TableOk(e, d) && PidsOk(e, d) by { OthersOnly(e, c, d); }
  }

  lemma ChildrenOnly(e: World, c: Books, d: Books)
    requires ChildrenOk(e, c) && d.keys == c.keys && d.children == c.children && d.childOf == c.childOf
    ensures ChildrenOk(e, d)
  {
  }

  lemma OthersOnly(e: World, c: Books, d: Books)
    requires PipesOk(e, c) && TableOk(e, c) && PidsOk(e, c)
    requires d == c.(reaped := d.reaped, toWait := d.toWait)
    ensures PipesOk(e, d) && TableOk(e, d) && PidsOk(e, d)
  {
  }

  lemma ReapedChild(e: World, c: Books, choice: nat, waited: set<nat>, x: nat)
    requires ChildrenOk(e, c) && WaitedOk(c, waited)
    requires choice < |c.children| && c.children[choice] == ExecutableChild(x) && x !in c.reaped
    ensures x in c.childOf
    ensures WaitedOk(c.(reaped := c.reaped + {x}, toWait := c.toWait - 1), waited + {choice})
  {
  }

  /** An appender's exit changes nothing. */
  lemma WaitedStutter(b: Books, choice: nat, before: set<nat>, after: set<nat>)
    requires WaitedOk(b, before)
    requires after == before
               || (choice < |b.children| && b.children[choice].AppenderChild? && after == before + {choice})
    ensures WaitedOk(b, after)
  {
  }

  /** The father of an executable that has just exited. */
  lemma FatherHears(n: Node, p: seq<nat>, father: Node, x: nat, e: set<nat>, st: Status, r: Results)
    requires WellFormed(n) && Consistent(n, e, st) && Midway(n, p, e, e + {x}, st, r)
    requires ValidPath(n, p) && p != [] && At(n, p).Executable? && At(n, p).id == x && x !in e
    requires FatherAt(n, p) == Some(father)
    ensures var q, k := p[..|p| - 1], p[|p| - 1];
            p == q + [k] && ValidPath(n, q) && At(n, q) == father && JustFinished(father, k, e, x, st, r)
            && father.nodes[k] == At(n, p)
  {
    var q, k := p[..|p| - 1], p[|p| - 1];
    assert p == q + [k];
    ParentPath(n, p);
    FatherIsParent(n, q, k);
    FatherIsTold(n, q, k, e, x, st, r);
  }

  lemma EmptyResults(n: Node, r: Results)
    requires r == map[]
    ensures Untouched(n, r)
  {
  }

  lemma NoneWaited(b: Books)
    requires b.reaped == {}
    ensures WaitedOk(b, {})
  {
  }

  /** What the evaluator computes: exactly the nodes it reaches have a result, with its codes. */
  ghost predicate FinalResults(n: Node, st: Status, r: Results) {
    NonEmpty(n) && r.Keys == Reached(n, st) && EvaluatedIn(n, st, r)
  }

  /** When toWait is 0 the root has finished and the results are the evaluator's. */
  lemma RunOutcome(e: World, b: Books, st: Status, r: Results)
    requires GoodWorld(e) && ChildrenOk(e, b) && WaitOk(b) && b.keys == r.Keys && b.toWait == 0
    requires State(e.tree, b.reaped, st, r) && Consistent(e.tree, b.reaped, st)
    ensures Done(e.tree, b.reaped, st) && Finished(e.tree, r)
    ensures b.reaped == Execs(e.tree) * Reached(e.tree, st)
    ensures FinalResults(e.tree, st, r)
  {
    hide Wired, Linear, FreshPids, State, Consistent, Done, Reached, EvaluatedIn, Distinct, NonEmpty, Ids;
    hide Execs, Finished;
    AllReaped(e, b, st, r);
    QuiescentDone(e.tree, b.reaped, st);
    QuiescentResults(e.tree, b.reaped, st, r);
    RootFinished(e.tree, b.reaped, st, r);
    SameKeys(e.tree, st, r);
  }

  lemma AllReaped(e: World, b: Books, st: Status, r: Results)
    requires WellFormed(e.tree) && ChildrenOk(e, b) && WaitOk(b) && b.keys == r.Keys && b.toWait == 0
    requires State(e.tree, b.reaped, st, r)
    ensures Live(e.tree, b.reaped, st) == {} && b.reaped == Execs(e.tree) * r.Keys && r.Keys <= Ids(e.tree)
  {
    hide Distinct, NonEmpty, State, Live, Ids, Execs;
    LiveIsStarted(e.tree, b.reaped, st, r);
    assert b.childOf.Keys - b.reaped == {};
    assert b.reaped == b.childOf.Keys;
  }

  lemma SameKeys(n: Node, st: Status, r: Results)
    requires NonEmpty(n) && r.Keys <= Ids(n) && forall x :: x in Ids(n) ==> (x in r <==> x in Reached(n, st))
    ensures r.Keys == Reached(n, st)
  {
    ReachedAreIds(n, st);
  }

  lemma RootFinished(n: Node, e: set<nat>, st: Status, r: Results)
    requires NonEmpty(n) && State(n, e, st, r) && Done(n, e, st)
    ensures Finished(n, r)
  {
  }

  /** Schedule independence: two finished runs of a tree with the same exit statuses end with the
      same results, whatever the orders in which wait3 reported the exits. */
  lemma ScheduleIndependence(e1: World, e2: World, b1: Books, b2: Books, st: Status, r1: Results, r2: Results)
    requires GoodWorld(e1) && ChildrenOk(e1, b1) && WaitOk(b1) && b1.keys == r1.Keys && b1.toWait == 0
    requires GoodWorld(e2) && ChildrenOk(e2, b2) && WaitOk(b2) && b2.keys == r2.Keys && b2.toWait == 0
    requires e1.tree == e2.tree
    requires State(e1.tree, b1.reaped, st, r1) && Consistent(e1.tree, b1.reaped, st)
    requires State(e2.tree, b2.reaped, st, r2) && Consistent(e2.tree, b2.reaped, st)
    ensures r1 == r2 && b1.reaped == b2.reaped
  {
    hide State, Consistent, ChildrenOk, WaitOk, WellFormed, Wired, Linear, FreshPids;
    RunOutcome(e1, b1, st, r1);
    RunOutcome(e2, b2, st, r2);
    StateDetermined(e1.tree, b1.reaped, st, r1, r2);
    ReachedAreIds(e1.tree, st);
    assert r1.Keys == r2.Keys;
  }

  /** As long as toWait is positive there is an executable to wait for. */
  lemma StillRunning(e: World, b: Books, waited: set<nat>)
    requires ChildrenOk(e, b) && WaitOk(b) && WaitedOk(b, waited) && b.toWait > 0
    ensures exists i :: 0 <= i < |b.children| && i !in waited && b.children[i].ExecutableChild?
  {
    assert b.childOf.Keys - b.reaped != {};
    var x :| x in b.childOf.Keys - b.reaped;
    assert b.children[b.childOf[x]] == ExecutableChild(x);
  }

  // ---- whole runs

  /** The engine at a head of the waiting loop. */
  datatype Head = Head(children: seq<Child>, waited: set<nat>, reaped: set<nat>, toWait: int, result: Results)

  /** At this head the whole tree is in the state that belongs to the exits handled so far, there are
      processes for exactly the executables that have a result, and toWait counts those among them
      whose exit has not been handled. */
  ghost predicate Sound(tree: Node, st: Status, h: Head) {
    && NonEmpty(tree) && State(tree, h.reaped, st, h.result) && Consistent(tree, h.reaped, st)
    && (forall x :: ExecutableChild(x) in h.children <==> x in Execs(tree) && x in h.result)
    && h.toWait == |Execs(tree) * h.result.Keys - h.reaped|
  }

  /** One turn of the loop when the kernel chooses child c: if it exists and has not been waited for, it
      has now; if it is an executable besides, its exit has been handled; nothing else happens, but
      that new children may have been forked. */
  ghost predicate Turn(h: Head, h': Head, c: nat) {
    && h.children <= h'.children
    && (c < |h.children| && c !in h.waited ==> h'.waited == h.waited + {c})
    && (c < |h.children| && c !in h.waited && h.children[c].ExecutableChild? ==>
          h.children[c].id !in h.reaped && h'.reaped == h.reaped + {h.children[c].id})
    && (c < |h.children| && c !in h.waited && h.children[c].AppenderChild? ==> h' == h.(waited := h'.waited))
    && (!(c < |h.children| && c !in h.waited) ==> h' == h)
  }

  /** The loop has taken choices of the schedule one by one. */
  ghost predicate Taken(tree: Node, st: Status, heads: seq<Head>, schedule: seq<nat>) {
    && 0 < |heads| <= |schedule| + 1
    && (forall t :: 0 <= t < |heads| ==> Sound(tree, st, heads[t]))
    && forall t :: 0 <= t < |heads| - 1 ==> heads[t].toWait > 0 && Turn(heads[t], heads[t + 1], schedule[t])
  }

  /** It has done so as long as there was something to wait for. */
  ghost predicate Follows(tree: Node, st: Status, heads: seq<Head>, schedule: seq<nat>) {
    && Taken(tree, st, heads, schedule)
    && (heads[|heads| - 1].toWait > 0 ==> |heads| == |schedule| + 1)
  }

  lemma OneMoreTaken(tree: Node, st: Status, heads: seq<Head>, schedule: seq<nat>, h: Head)
    requires Taken(tree, st, heads, schedule) && |heads| <= |schedule| && Sound(tree, st, h)
    requires heads[|heads| - 1].toWait > 0 && Turn(heads[|heads| - 1], h, schedule[|heads| - 1])
    ensures Taken(tree, st, heads + [h], schedule)
  {
    hide Sound, Turn;
  }

  /** The children that the first t choices name have been waited for. */
  ghost predicate WaitedFor(children: seq<Child>, schedule: seq<nat>, t: nat, waited: set<nat>) {
    forall u :: 0 <= u < t <= |schedule| && schedule[u] < |children| ==> schedule[u] in waited
  }

  /** The number of turns that have handled no exit. */
  ghost function Wasted(heads: seq<Head>): nat {
    if |heads| < 2 then 0
    else
      var n := |heads| - 1;
      Wasted(heads[..n]) + if heads[n].reaped == heads[n - 1].reaped then 1 else 0
  }

  lemma WastedSnoc(heads: seq<Head>, h: Head)
    requires heads != []
    ensures Wasted(heads + [h])
         == Wasted(heads) + if h.reaped == heads[|heads| - 1].reaped then 1 else 0
  {
    assert (heads + [h])[..|heads|] == heads;
  }

  /** The executables among the children that the schedule names have been reported. */
  ghost predicate AllNamed(children: seq<Child>, schedule: seq<nat>, reaped: set<nat>) {
    forall i :: i in schedule && i < |children| && children[i].ExecutableChild? ==> children[i].id in reaped
  }

  /** open_appender_fds: an array of fixed size with the number of entries in use. */
  class AppenderTable {
    const fds: array<Tap>
    var count: nat
    ghost var contents: seq<Tap>

    ghost predicate Valid()
      reads this, fds
    {
      count <= fds.Length && contents == fds[..count]
    }

    constructor (size: nat)
      ensures Valid() && fresh(fds) && fds.Length == size && contents == []
    {
      fds := new Tap[size];
      count, contents := 0, [];
    }

    method Push(t: Tap)
      requires Valid() && count < fds.Length
      modifies this, fds
      ensures Valid() && contents == old(contents) + [t] && count == old(count) + 1
    {
      fds[count] := t;
      count := count + 1;
      contents := contents + [t];
    }
  }

  lemma ExecutableAt(e: World, p: seq<nat>)
    requires GoodWorld(e) && ValidPath(e.tree, p) && At(e.tree, p).Executable?
    ensures At(e.tree, p).id in e.wiring.stdIn && At(e.tree, p).id in e.wiring.stdOut
  {
    WiredAt(e.wiring, e.tree, p);
  }

  lemma PipesOpenedOnce(e: World, b: Books)
    requires PipesOk(e, b)
    ensures OpenedOnce(b.pipeCalls, b.initialized)
  {
  }

  class Engine {
    const world: World
    const status: Status           // the wait status each executable will end with

    // ---- the kernel's table of our child processes
    var children: seq<Child>
    var waited: set<nat>

    // ---- the engine's own variables
    var toWait: int
    var result: Results
    var pid: map<nat, int>
    var initialized: set<nat>      // pipe_stream->initialized
    var openEnds: set<Tap>         // pipe ends open in this process
    var table: AppenderTable       // open_appender_fds

    ghost var started: seq<nat>          // the nodes whose result has been created, in this order
    ghost var reports: seq<nat>          // the operators that have ended, in this order
    ghost var childOf: map<nat, nat>
    ghost var reaped: set<nat>
    ghost var pipeCalls: multiset<nat>   // how often pipe(2) was called for each pipe
    ghost var failedCloses: nat          // calls of close(2) on a descriptor that is not open

    ghost function Book(): Books
      reads this, table
    {
      Books(result.Keys, started, initialized, openEnds, pipeCalls, failedCloses, table.contents,
            children, pid, childOf, reaped, toWait)
    }

    ghost predicate Accounts()
      reads this, table, table.fds
    {
      && GoodWorld(world) && BooksOk(world, Book()) && ReportsOk(world.tree, result, reports)
      && table.Valid() && table.fds.Length == MaxFds(world.tree)
    }

    /** The invariant of the waiting loop: the whole state is determined by the set of executables
        that have exited. */
    ghost predicate Valid()
      reads this, table, table.fds
    {
      && Accounts()
      && WaitedOk(Book(), waited)
      && State(world.tree, reaped, status, result) && Consistent(world.tree, reaped, status)
    }

    ghost function Snapshot(): Head
      reads this
    {
      Head(children, waited, reaped, toWait, result)
    }

    /** Some started executable has not been reported yet. */
    ghost predicate Blocked()
      reads this
    {
      exists i :: 0 <= i < |children| && i !in waited && children[i].ExecutableChild?
    }

    /** A run about to begin: no node has a result, no pipe exists. */
    constructor (world: World, status: Status)
      ensures this.world == world && this.status == status
      ensures result == map[] && children == [] && waited == {} && pid == world.garbage
      ensures initialized == {} && openEnds == {} && pipeCalls == multiset{} && failedCloses == 0
      ensures reaped == {} && childOf == map[] && started == [] && reports == []
    {
      this.world, this.status := world, status;
      children, waited, toWait, result, pid := [], {}, 0, map[], world.garbage;
      initialized, openEnds := {}, {};
      table := new AppenderTable(0);
      reaped, childOf, pipeCalls, failedCloses, started, reports := {}, map[], multiset{}, 0, [], [];
    }

    // ---- pipes

    method OpenPipeIfNeeded(toInit: Stream)
      modifies `initialized, `openEnds, `pipeCalls
      ensures initialized == old(initialized) + (if toInit.PipeStream? then {toInit.pipe} else {})
      ensures Opened(old(initialized), old(openEnds), initialized, openEnds)
      ensures OpenedOnce(old(pipeCalls), old(initialized)) ==> OpenedOnce(pipeCalls, initialized)
    {
      if toInit.PipeStream? {
        var p := toInit.pipe;
        if p !in initialized {
          openEnds := openEnds + {Tap(toInit, ReadEnd), Tap(toInit, WriteEnd)};
          initialized := initialized + {p};
          pipeCalls := pipeCalls + multiset{p};
          forall t: Tap | t.stream.PipeStream? && t.stream.pipe == p
            ensures t in {Tap(toInit, ReadEnd), Tap(toInit, WriteEnd)}
          {
            match t.end { case ReadEnd => case WriteEnd => }
          }
        }
      }
    }

    method OpenPipesIfNeeded(stdIn: Stream, stdOut: Stream)
      modifies `initialized, `openEnds, `pipeCalls
      ensures initialized == old(initialized) + PipesIn([stdIn, stdOut])
      ensures Opened(old(initialized), old(openEnds), initialized, openEnds)
      ensures OpenedOnce(old(pipeCalls), old(initialized)) ==> OpenedOnce(pipeCalls, initialized)
    {
      OpenPipeIfNeeded(stdIn);
      OpenPipeIfNeeded(stdOut);
      PipesInSnoc([stdIn], stdOut);
      PipesInSnoc([], stdIn);
    }

    method Close(t: Tap)
      modifies `openEnds, `failedCloses
      ensures openEnds == old(openEnds) - {t}
      ensures failedCloses == old(failedCloses) + (if t in old(openEnds) then 0 else 1)
    {
      if t !in openEnds {
        failedCloses := failedCloses + 1;
      }
      openEnds := openEnds - {t};
    }

    // ---- starting nodes

    method ExecuteAsync(node: Node, ghost p: seq<nat>)
      requires Accounts() && ValidPath(world.tree, p) && At(world.tree, p) == node && NonEmpty(node)
      requires Untouched(node, result)
      modifies this, table, table.fds
      ensures Accounts() && table == old(table)
      ensures State(node, {}, status, result) && SameOff(Ids(node), old(result), result)
      ensures started == old(started) + StartOrder(node) && reports == old(reports)
      ensures children == old(children) + ForkOrder(node)
      ensures reaped == old(reaped) && waited == old(waited)
      decreases node, 1
    {
      hide ReportsOk, GoodWorld, BooksOk, Ids, Execs, At, ValidPath, MaxFds, State, Untouched, SameOff;
      match node
      case Executable(_, _) =>
        FreshExecutable(node, status, result);
        ExecuteExecutableAsync(node, p);
      case Operands(_, kind, _) =>
        match kind
        case Pipe => ExecutePipeAsync(node, p);
        case And => ExecuteFirstOperandAsyncAndStartAppender(node, p);
        case Or => ExecuteFirstOperandAsyncAndStartAppender(node, p);
        case Semicolon => ExecuteFirstOperandAsyncAndStartAppender(node, p);
    }

    method ExecuteExecutableAsync(node: Node, ghost p: seq<nat>)
      requires Accounts() && ValidPath(world.tree, p) && At(world.tree, p) == node && node.Executable?
      requires node.id !in result
      modifies `initialized, `openEnds, `pipeCalls, `failedCloses, `result, `started, `toWait, `pid, `childOf, `children
      ensures Accounts()
      ensures result == old(result)[node.id := None] && started == old(started) + [node.id]
      ensures children == old(children) + [ExecutableChild(node.id)]
      ensures childOf == old(childOf)[node.id := |old(children)|]
    {
      hide GoodWorld, BooksOk, ReportsOk, Ids, Execs, At, ValidPath, MaxFds, OpenedOnce, OnlyPipes, Opened;
      hide WithoutEnds, PipesIn;
      ReportsNew(world.tree, result, reports, node.id);
      ExecutableAt(world, p);
      ghost var o1 := OpenForkAndClose(node, p);
      ExecutableStarted(world, old(Book()), p, o1, pipeCalls);
      assert Book() == AfterExecutable(world, old(Book()), node.id, o1, pipeCalls);
    }

    /** Opens the executable's pipes, forks, and closes in the parent the ends the child uses; o1
        are the ends open at the fork. */
    method OpenForkAndClose(node: Node, ghost p: seq<nat>) returns (ghost o1: set<Tap>)
      requires Accounts() && ValidPath(world.tree, p) && At(world.tree, p) == node && node.Executable?
      requires node.id !in result
      requires node.id in world.wiring.stdIn && node.id in world.wiring.stdOut
      modifies `initialized, `openEnds, `pipeCalls, `failedCloses, `result, `started, `toWait, `pid, `childOf, `children
      ensures initialized == old(initialized) + PipesIn([world.wiring.stdIn[node.id], world.wiring.stdOut[node.id]])
      ensures Opened(old(initialized), old(openEnds), initialized, o1)
      ensures openEnds == WithoutEnds(o1, world.wiring.stdIn[node.id], world.wiring.stdOut[node.id])
      ensures OpenedOnce(pipeCalls, initialized) && failedCloses == old(failedCloses)
      ensures result == old(result)[node.id := None] && started == old(started) + [node.id] && toWait == old(toWait) + 1
      ensures pid == old(pid)[node.id := world.forkPid(|old(children)|)]
      ensures childOf == old(childOf)[node.id := |old(children)|]
      ensures children == old(children) + [ExecutableChild(node.id)]
    {
      hide GoodWorld, Ids, Execs, At, ValidPath, MaxFds, OpenedOnce, OnlyPipes, Opened, WithoutEnds, PipesIn;
      hide PipesOk, TableOk, ChildrenOk, PidsOk, WaitOk;
      var stdIn, stdOut := world.wiring.stdIn[node.id], world.wiring.stdOut[node.id];
      PipesOpenedOnce(world, Book());
      OpenPipesIfNeeded(stdIn, stdOut);
      ExecutableReady(world, old(Book()), p, initialized, openEnds);
      o1 := openEnds;
      Fork(node.id);
      CloseOwnEnds(stdIn, stdOut);
    }

    /** Allocates the result and forks; in the parent, node->pid is set. */
    method Fork(id: nat)
      modifies `result, `started, `toWait, `pid, `childOf, `children
      ensures result == old(result)[id := None] && started == old(started) + [id] && toWait == old(toWait) + 1
      ensures pid == old(pid)[id := world.forkPid(|old(children)|)] && childOf == old(childOf)[id := |old(children)|]
      ensures children == old(children) + [ExecutableChild(id)]
    {
      result, started := result[id := None], started + [id];
      toWait := toWait + 1;
      pid := pid[id := world.forkPid(|children|)];
      childOf := childOf[id := |children|];
      children := children + [ExecutableChild(id)];
    }

    /** In the parent, the ends the child uses are closed. */
    method CloseOwnEnds(stdIn: Stream, stdOut: Stream)
      requires stdIn.PipeStream? ==> Tap(stdIn, ReadEnd) in openEnds
      requires stdOut.PipeStream? ==> Tap(stdOut, WriteEnd) in openEnds
      requires OnlyPipes(openEnds)
      modifies `openEnds, `failedCloses
      ensures openEnds == WithoutEnds(old(openEnds), stdIn, stdOut)
      ensures failedCloses == old(failedCloses)
    {
      if stdIn.PipeStream? {
        Close(Tap(stdIn, ReadEnd));
      }
      if stdOut.PipeStream? {
        Close(Tap(stdOut, WriteEnd));
      }
    }

    method ExecutePipeAsync(node: Node, ghost p: seq<nat>)
      requires Accounts() && ValidPath(world.tree, p) && At(world.tree, p) == node && NonEmpty(node)
      requires Untouched(node, result)
      requires node.Operands? && node.kind == Pipe
      modifies this, table, table.fds
      ensures Accounts() && table == old(table)
      ensures State(node, {}, status, result) && SameOff(Ids(node), old(result), result)
      ensures started == old(started) + StartOrder(node) && reports == old(reports)
      ensures children == old(children) + ForkOrder(node)
      ensures reaped == old(reaped) && waited == old(waited)
      decreases node, 0
    {
      hide InStartOrder, StartOrder, StartOrderAll, ForkOrder, ForkOrderAll;
      hide ReportsOk, BooksOk, FreshPids, Wired, Linear, Distinct, NonEmpty, Ids;
      hide Execs, At, ValidPath, MaxFds, State, Untouched, SameOff, StartedUpTo;
      AtFacts(world.tree, p);
      ResultCreated(node, status, result);
      CreatePipeResult(node, p);
      NoneInOrder(node, old(started), old(children));
      for i := 0 to |node.nodes|
        invariant Accounts() && table == old(table)
        invariant StartedUpTo(node, i, status, old(result), result)
        invariant InStartOrder(node, i, old(started), old(children), started, children) && reports == old(reports)
        invariant reaped == old(reaped) && waited == old(waited)
      {
        ghost var before := result;
        NextInOrder(node, i, old(started), old(children), started, children);
        NextUntouched(node, i, status, old(result), result);
        ExtendPath(world.tree, p, i);
        AtFacts(world.tree, p + [i]);
        ExecuteAsync(node.nodes[i], p + [i]);
        OneMoreStarted(node, i, status, old(result), before, result);
      }
      AllInOrder(node, old(started), old(children), started, children);
      OperatorStarted(node, |node.nodes|, status, old(result), result);
    }

    method CreatePipeResult(node: Node, ghost p: seq<nat>)
      requires Accounts() && ValidPath(world.tree, p) && At(world.tree, p) == node && node.id !in result
      requires node.Operands? && node.kind == Pipe
      modifies `result, `started
      ensures Accounts() && result == old(result)[node.id := None] && started == old(started) + [node.id]
    {
      hide GoodWorld, BooksOk, Ids, Execs, At, ValidPath, MaxFds, OpenedOnce, OnlyPipes, Opened, WithoutEnds, PipesIn;
      PipeStarted(world, Book(), p);
      ReportsNew(world.tree, result, reports, node.id);
      result, started := result[node.id := None], started + [node.id];
      assert Book() == old(Book()).(keys := old(Book()).keys + {node.id}, started := old(started) + [node.id]);
    }

    method ExecuteFirstOperandAsyncAndStartAppender(node: Node, ghost p: seq<nat>)
      requires Accounts() && ValidPath(world.tree, p) && At(world.tree, p) == node && NonEmpty(node)
      requires Untouched(node, result)
      requires Appends(node)
      modifies this, table, table.fds
      ensures Accounts() && table == old(table)
      ensures State(node, {}, status, result) && SameOff(Ids(node), old(result), result)
      ensures started == old(started) + StartOrder(node) && reports == old(reports)
      ensures children == old(children) + ForkOrder(node)
      ensures reaped == old(reaped) && waited == old(waited)
      decreases node, 0
    {
      hide ReportsOk, BooksOk, FreshPids, Wired, Linear, Distinct, NonEmpty, Ids, Execs, At, ValidPath;
      hide MaxFds, State, Untouched, SameOff, StartedUpTo, StartOrder, ForkOrder;
      AtFacts(world.tree, p);
      ResultCreated(node, status, result);
      OneOperandAtLeast(node);
      if |node.nodes| > 0 {
        FirstStartOrder(node);
        StartAppender(node, p);
        ghost var before := result;
        NextUntouched(node, 0, status, old(result), result);
        ExtendPath(world.tree, p, 0);
        AtFacts(world.tree, p + [0]);
        ExecuteAsync(node.nodes[0], p + [0]);
        OneMoreStarted(node, 0, status, old(result), before, result);
        OperatorStarted(node, 1, status, old(result), result);
      }
    }

    /** Creates the operator's result and starts its appender. */
    method StartAppender(node: Node, ghost p: seq<nat>)
      requires Accounts() && ValidPath(world.tree, p) && At(world.tree, p) == node && Appends(node)
      requires node.id !in result
      modifies this`initialized, this`openEnds, this`pipeCalls, this`failedCloses, this`children, this`result
      modifies this`started
      modifies table, table.fds
      ensures Accounts() && result == old(result)[node.id := None] && started == old(started) + [node.id]
      ensures children == old(children) + [AppenderChild]
    {
      hide GoodWorld, BooksOk, ReportsOk, Ids, Execs, At, ValidPath, MaxFds, OpenedOnce, OnlyPipes, Opened;
      hide WithoutEnds, PipesIn, AppenderTaps, AppenderShape, ReadyToStart, Settled, PipesOf;
      AppenderReady(world, Book(), p);
      ReportsNew(world.tree, result, reports, node.id);
      result, started := result[node.id := None], started + [node.id];
      InitAppender(world.wiring.appender[node.id]);
      AppenderStarted(world, old(Book()), p, openEnds, pipeCalls);
      assert Book() == AfterAppender(world, old(Book()), node.id, openEnds, pipeCalls);
    }

    /** Opens the pipes the appender needs, forks it, closes its ends here and records the write
        ends of its operands. */
    method InitAppender(appender: Appender)
      requires AppenderShape(appender)
      requires ReadyToStart(AppenderTaps(appender), initialized, openEnds)
      requires OnlyPipes(openEnds)
      requires OpenedOnce(pipeCalls, initialized)
      requires table.Valid() && table.count + |appender.from| <= table.fds.Length
      modifies this`initialized, this`openEnds, this`pipeCalls, this`failedCloses, this`children
      modifies table, table.fds
      ensures children == old(children) + [AppenderChild]
      ensures OpenedOnce(pipeCalls, initialized)
      ensures initialized == old(initialized) + PipesOf(AppenderTaps(appender))
      ensures Settled(AppenderTaps(appender), old(initialized), old(openEnds), initialized, openEnds)
      ensures failedCloses == old(failedCloses) + (if appender.to.PipeStream? then 1 else 0)
      ensures table.Valid() && table.contents == old(table.contents) + Taps(appender.from, WriteEnd)
    {
      hide AppenderShape, ReadyToStart, OnlyPipes, OpenedOnce, Settled, PipesOf, AppenderTaps, OutputFile, NewEnd;
      AppenderEnds(appender, initialized, openEnds);
      OpenAppenderPipes(appender);
      ghost var ends := openEnds;
      OpenedEnds(appender, old(initialized), old(openEnds), initialized, ends);

      // fork
      children := children + [AppenderChild];

      CloseOutput(appender.to);
      CloseAppenderEnds(appender);
      ClosedEnds(appender, old(initialized), old(openEnds), initialized, ends, openEnds);
    }

    /** In the parent, the appender's output is closed, twice if it is a pipe. */
    method CloseOutput(to: Stream)
      requires to != Descriptor(STDOUT_FILENO) ==> Tap(to, WriteEnd) in openEnds
      modifies this`openEnds, this`failedCloses
      ensures openEnds == if to == Descriptor(STDOUT_FILENO) then old(openEnds) else old(openEnds) - {Tap(to, WriteEnd)}
      ensures failedCloses == old(failedCloses) + (if to.PipeStream? then 1 else 0)
    {
      if to != Descriptor(STDOUT_FILENO) {
        Close(Tap(to, WriteEnd));
      }
      if to.PipeStream? {
        Close(Tap(to, WriteEnd));
      }
    }

    method OpenAppenderPipes(appender: Appender)
      requires forall s :: s in appender.from ==> s.PipeStream?
      requires OpenedOnce(pipeCalls, initialized)
      modifies this`initialized, this`openEnds, this`pipeCalls
      ensures OpenedOnce(pipeCalls, initialized)
      ensures initialized == old(initialized) + PipesOf(AppenderTaps(appender))
      ensures forall t: Tap :: t in openEnds <==>
                t in old(openEnds) || NewEnd(t, old(initialized), initialized) || OutputFile(t, appender)
    {
      hide OpenedOnce, PipesOf, AppenderTaps, PipesIn;
      var to := appender.to;
      OpenPipeIfNeeded(to);
      PipesInStart(to, appender.from);
      if to.File? {
        openEnds := openEnds + {Tap(to, WriteEnd)};
      }
      for i := 0 to |appender.from|
        invariant OpenedOnce(pipeCalls, initialized)
        invariant initialized == old(initialized) + PipesIn([to] + appender.from[..i])
        invariant forall t: Tap :: t in openEnds <==>
                    t in old(openEnds) || NewEnd(t, old(initialized), initialized) || OutputFile(t, appender)
      {
        OpenPipeIfNeeded(appender.from[i]);
        PipesInNext(to, appender.from, i);
      }
      AppenderPipes(appender);
    }

    method CloseAppenderEnds(appender: Appender)
      requires forall s :: s in appender.from ==> s.PipeStream?
      requires forall s :: s in appender.from ==>
                 Tap(s, ReadEnd) in openEnds && multiset(Taps(appender.from, ReadEnd))[Tap(s, ReadEnd)] == 1
      requires table.Valid() && table.count + |appender.from| <= table.fds.Length
      modifies this`openEnds, this`failedCloses, table, table.fds
      ensures openEnds == old(openEnds) - set t | t in Taps(appender.from, ReadEnd)
      ensures failedCloses == old(failedCloses)
      ensures table.Valid() && table.contents == old(table.contents) + Taps(appender.from, WriteEnd)
    {
      ghost var readEnds := Taps(appender.from, ReadEnd);
      for i := 0 to |appender.from|
        invariant failedCloses == old(failedCloses)
        invariant openEnds == old(openEnds) - set j | 0 <= j < i :: readEnds[j]
        invariant table.Valid() && table.count == old(table.count) + i
        invariant table.contents == old(table.contents) + Taps(appender.from, WriteEnd)[..i]
      {
        forall j | 0 <= j < i ensures readEnds[j] != readEnds[i] {
          assert appender.from[j] in appender.from;
          SingleOccurrences(readEnds, j, i);
        }
        Close(Tap(appender.from[i], ReadEnd));
        table.Push(Tap(appender.from[i], WriteEnd));
      }
    }

    /** What an appender that is ready to start reads and writes. */
    static lemma AppenderEnds(a: Appender, i0: set<nat>, o0: set<Tap>)
      requires AppenderShape(a) && ReadyToStart(AppenderTaps(a), i0, o0)
      ensures forall s :: s in a.from ==> s.PipeStream?
      ensures forall s :: s in a.from ==> multiset(Taps(a.from, ReadEnd))[Tap(s, ReadEnd)] == 1
    {
      hide PipesOf;
      AppenderPipes(a);
      var own := AppenderTaps(a);
      forall s | s in a.from ensures multiset(Taps(a.from, ReadEnd))[Tap(s, ReadEnd)] == 1 {
        assert Tap(s, ReadEnd) in Taps(a.from, ReadEnd);
        assert own[Tap(s, ReadEnd)] == 1;
      }
    }

    /** Once the pipes have been opened, every end the appender uses is open. */
    static lemma OpenedEnds(a: Appender, i0: set<nat>, o0: set<Tap>, i1: set<nat>, o1: set<Tap>)
      requires AppenderShape(a) && ReadyToStart(AppenderTaps(a), i0, o0) && i1 == i0 + PipesOf(AppenderTaps(a))
      requires forall t: Tap :: t in o1 <==> t in o0 || NewEnd(t, i0, i1) || OutputFile(t, a)
      ensures a.to != Descriptor(STDOUT_FILENO) ==> Tap(a.to, WriteEnd) in o1
      ensures forall s :: s in a.from ==> Tap(s, ReadEnd) in o1
    {
      AppenderPipes(a);
      var own := AppenderTaps(a);
      hide AppenderTaps;
      forall t: Tap | t in own && t.stream.PipeStream? ensures t in o1 {
        TapTouches(own, t);
      }
      assert Tap(a.to, WriteEnd) in own;
    }

    /** After its own ends have been closed the appender has settled. */
    static lemma ClosedEnds(a: Appender, i0: set<nat>, o0: set<Tap>, i1: set<nat>, o1: set<Tap>, o2: set<Tap>)
      requires AppenderShape(a) && OnlyPipes(o0)
      requires forall t: Tap :: t in o1 <==> t in o0 || NewEnd(t, i0, i1) || OutputFile(t, a)
      requires o2 == (if a.to == Descriptor(STDOUT_FILENO) then o1 else o1 - {Tap(a.to, WriteEnd)})
                     - set t | t in Taps(a.from, ReadEnd)
      ensures Settled(AppenderTaps(a), i0, o0, i1, o2)
    {
      hide PipesOf;
      AppenderPipes(a);
      hide AppenderTaps;
    }

    static lemma AppenderPipes(a: Appender)
      requires forall s :: s in a.from ==> s.PipeStream?
      ensures forall t :: t in AppenderTaps(a) <==> t == Tap(a.to, WriteEnd) || t in Taps(a.from, ReadEnd)
      ensures forall s :: s in a.from ==> Tap(s, ReadEnd) in Taps(a.from, ReadEnd)
      ensures PipesOf(AppenderTaps(a)) == PipesIn([a.to] + a.from)
    {
      var taps, readEnds := AppenderTaps(a), Taps(a.from, ReadEnd);
      assert Tap(a.to, WriteEnd) in taps;
      forall s | s in a.from ensures Tap(s, ReadEnd) in readEnds {
        var j :| 0 <= j < |a.from| && a.from[j] == s;
        assert readEnds[j] == Tap(s, ReadEnd);
      }
      forall p ensures p in PipesOf(taps) <==> p in PipesIn([a.to] + a.from) {
        if p in PipesIn([a.to] + a.from) {
          var s :| s in [a.to] + a.from && s.PipeStream? && s.pipe == p;
          TapTouches(taps, Tap(s, if s == a.to then WriteEnd else ReadEnd));
        }
      }
    }

    // ---- a finished operand

    /** Tells an operator that one of its operands has finished: it starts the next operand, ends,
        or does nothing. */
    method TellOperator(op: Node, completed: Node, ghost p: seq<nat>, ghost k: nat, ghost x: nat) returns (end: bool)
      requires Accounts() && ValidPath(world.tree, p) && At(world.tree, p) == op
      requires JustFinished(op, k, reaped, x, status, result) && completed == op.nodes[k]
      modifies this, table, table.fds
      ensures Accounts() && table == old(table)
      ensures reaped == old(reaped) && waited == old(waited) && old(children) <= children && old(started) <= started
      ensures SameOff(Ids(op), old(result), result) && State(op, reaped + {x}, status, result)
      ensures reports == old(reports) + if end then [op.id] else []
      ensures if end then Done(op, reaped + {x}, status) && !Done(op, reaped, status)
              else Done(op, reaped + {x}, status) == Done(op, reaped, status)
    {
      hide ReportsOk, StartOrder, ForkOrder, GoodWorld, BooksOk, Ids, Execs, At, ValidPath, MaxFds, State, Untouched;
      hide SameOff, Begun, Done;
      var next := FindNextNodeInOperands(op, completed);
      NextOperand(op, k, next);
      JustFinishedFacts(op, k, reaped, x, status, result);
      CompletedCode(op, k, reaped, x, status, result);
      var hasNext := next.Some?;
      var code := result[completed.id].value;
      var exitedCorrectly := Ok(code);
      end := false;
      match op.kind
      case And =>
        if exitedCorrectly && hasNext {
          StartNext(op, next.value, p, k, x);
        } else if exitedCorrectly {
          EndOperator(op, 0, p, k, x);
          end := true;
        } else {
          EndOperator(op, code, p, k, x);
          end := true;
        }
      case Or =>
        if exitedCorrectly {
          EndOperator(op, 0, p, k, x);
          end := true;
        } else if hasNext {
          StartNext(op, next.value, p, k, x);
        } else {
          EndOperator(op, code, p, k, x);
          end := true;
        }
      case Semicolon =>
        if hasNext {
          StartNext(op, next.value, p, k, x);
        } else {
          EndOperator(op, code, p, k, x);
          end := true;
        }
      case Pipe =>
        if !hasNext {
          EndOperator(op, code, p, k, x);
          end := true;
        } else {
          PipeGoesOn(op, k, reaped, x, status, result);
          NothingChanged(Ids(op), result);
        }
    }

    /** execute_async(next) */
    method StartNext(op: Node, next: Node, ghost p: seq<nat>, ghost k: nat, ghost x: nat)
      requires Accounts() && ValidPath(world.tree, p) && At(world.tree, p) == op
      requires JustFinished(op, k, reaped, x, status, result) && op.kind != Pipe
      requires k + 1 < |op.nodes| && next == op.nodes[k + 1] && !Stops(op.kind, Eval(op.nodes[k], status))
      modifies this, table, table.fds
      ensures Accounts() && table == old(table)
      ensures reaped == old(reaped) && waited == old(waited) && old(children) <= children && old(started) <= started
      ensures SameOff(Ids(op), old(result), result) && State(op, reaped + {x}, status, result)
      ensures !Done(op, reaped + {x}, status) && !Done(op, reaped, status)
      ensures started == old(started) + StartOrder(next) && reports == old(reports)
      ensures children == old(children) + ForkOrder(next)
    {
      hide ReportsOk, StartOrder, ForkOrder, GoodWorld, BooksOk, Ids, Execs, At, ValidPath, MaxFds, State, Untouched;
      hide SameOff, Begun, Done;
      SequenceBefore(op, k, reaped, x, status, result);
      SequenceAfter(op, k, reaped, x, status, result);
      ExtendPath(world.tree, p, k + 1);
      AtFacts(world.tree, p + [k + 1]);
      ghost var before := result;
      ExecuteAsync(next, p + [k + 1]);
      NextStarted(op, k, reaped, x, status, before, result);
    }

    /** operands_node->result->exit_code = code */
    method EndOperator(op: Node, code: int, ghost p: seq<nat>, ghost k: nat, ghost x: nat)
      requires Accounts() && ValidPath(world.tree, p) && At(world.tree, p) == op
      requires JustFinished(op, k, reaped, x, status, result)
      requires k + 1 == |op.nodes| || (op.kind != Pipe && Stops(op.kind, Eval(op.nodes[k], status)))
      requires code == Verdict(op.kind, Eval(op.nodes[k], status))
      modifies `result, `reports
      ensures Accounts() && reports == old(reports) + [op.id]
      ensures SameOff(Ids(op), old(result), result)
      ensures State(op, reaped + {x}, status, result)
      ensures Done(op, reaped + {x}, status) && !Done(op, reaped, status)
    {
      hide BooksOk, ReportsOk, Execs, At, ValidPath, MaxFds, State, Untouched, Begun, Done;
      JustFinishedFacts(op, k, reaped, x, status, result);
      if op.kind != Pipe {
        SequenceAfter(op, k, reaped, x, status, result);
      }
      OperatorEnded(op, k, reaped, x, status, result, result[op.id := Some(code)]);
      assert op.id in Ids(op);
      OperatorIsNoExecutable(world.tree, p);
      ReportsEnd(world.tree, result, reports, op.id, code);
      result, reports := result[op.id := Some(code)], reports + [op.id];
      assert result.Keys == old(result.Keys);
      assert Book() == old(Book());
    }

    /** handle_operands_node_execution_completed: tells the operator, and if this ends it, its
        father, and so on upwards. */
    method HandleOperandsNodeExecutionCompleted(op: Node, completed: Node, ghost p: seq<nat>, ghost k: nat,
        ghost x: nat)
      requires Accounts() && Consistent(world.tree, reaped, status)
      requires ValidPath(world.tree, p) && At(world.tree, p) == op
      requires Midway(world.tree, p + [k], reaped, reaped + {x}, status, result)
      requires JustFinished(op, k, reaped, x, status, result) && completed == op.nodes[k]
      modifies this, table, table.fds
      ensures Accounts() && table == old(table)
      ensures reaped == old(reaped) && waited == old(waited) && old(children) <= children
      ensures old(started) <= started && old(reports) <= reports
      ensures State(world.tree, reaped + {x}, status, result)
      decreases |p|
    {
      hide ReportsOk, BooksOk, Ids, Execs, At, ValidPath, MaxFds, State, Untouched, SameOff, Begun, Done;
      hide Midway, Distinct, NonEmpty, Wired, Linear, FreshPids;
      ghost var before := result;
      OperandInside(world.tree, p, op, k, x);
      var end := TellOperator(op, completed, p, k, x);
      TellSettles(world.tree, p, k, reaped, x, status, before, result);
      if end {
        var father := FindFatherOfNodeInTree(op, world.tree);
        FatherFound(world.tree, p, op, father);
        if father.Some? {
          ghost var q, j := p[..|p| - 1], p[|p| - 1];
          assert p == q + [j];
          FatherIsTold(world.tree, q, j, reaped, x, status, result);
          HandleOperandsNodeExecutionCompleted(father.value, op, q, j, x);
        }
      }
    }

    // ---- the waiting loop

    /** The kernel's wait3. `choice` is the child whose exit it reports; if that child does not
        exist or has been waited for already, the call is interrupted and returns -1. */
    method Wait3(choice: nat) returns (pid: int, code: int)
      modifies `waited
      ensures if choice < |children| && choice !in old(waited)
              then waited == old(waited) + {choice} && pid == world.forkPid(choice)
                   && (children[choice].ExecutableChild? ==> code == status(children[choice].id))
              else waited == old(waited) && pid == -1
    {
      if choice < |children| && choice !in waited {
        waited := waited + {choice};
        return world.forkPid(choice), if children[choice].ExecutableChild? then status(children[choice].id) else 0;
      }
      return -1, 0;
    }

    /** The kernel's choice is an executable whose exit has not been reported. */
    static ghost predicate ExitsNext(choice: nat, children: seq<Child>, waited: set<nat>) {
      choice < |children| && choice !in waited && children[choice].ExecutableChild?
    }

    /** One turn of the waiting loop: the exit of an executable of the tree is added to the exits
        handled, any other wake-up changes nothing. */
    method WaitOnce(choice: nat)
      requires Valid()
      modifies this, table, table.fds
      ensures Valid() && table == old(table) && old(children) <= children
      ensures old(started) <= started && old(reports) <= reports
      ensures ExitsNext(choice, old(children), old(waited)) ==>
                old(children)[choice].id in Execs(world.tree) && old(children)[choice].id !in old(reaped)
      ensures ExitsNext(choice, old(children), old(waited)) ==> reaped == old(reaped) + {old(children)[choice].id}
      ensures !ExitsNext(choice, old(children), old(waited)) ==> Book() == old(Book()) && result == old(result)
      ensures Turn(old(Snapshot()), Snapshot(), choice)
    {
      hide ReportsOk, BooksOk, Ids, Execs, At, ValidPath, MaxFds, State, Consistent, WaitedOk, Distinct;
      hide NonEmpty, Wired, Linear, FreshPids;
      AllPidsKnown(world, Book());
      var pid, code := Wait3(choice);
      var found, node, father, p := FindNodeInTreeWithPid(world.tree, pid, this.pid);
      WokenUp(world, Book(), choice, old(waited), pid, found, if found then node.value.id else 0);
      if found {
        ghost var x, b, e := node.value.id, Book(), reaped;
        AssignResultsAndTell(node.value, father, code, p);
        WaitedAfterReap(world, b, Book(), choice, old(waited), x);
        FinishWait(x);
        ConsistentStep(world.tree, e, x, status);
      } else {
        WaitedStutter(Book(), choice, old(waited), waited);
      }
    }

    /** assign_results, and the father is told. */
    method AssignResultsAndTell(node: Node, father: Option<Node>, code: int, ghost p: seq<nat>)
      requires Accounts() && State(world.tree, reaped, status, result) && Consistent(world.tree, reaped, status)
      requires ValidPath(world.tree, p) && node == At(world.tree, p) && node.Executable?
      requires father == FatherAt(world.tree, p)
      requires node.id in Execs(world.tree) && node.id in Book().keys && node.id !in reaped && code == status(node.id)
      modifies this, table, table.fds
      ensures Accounts() && table == old(table)
      ensures reaped == old(reaped) && waited == old(waited) && old(children) <= children
      ensures old(started) <= started && old(reports) <= reports
      ensures State(world.tree, reaped + {node.id}, status, result) && node.id in Live(world.tree, reaped, status)
    {
      hide ReportsOk, BooksOk, Ids, Execs, At, ValidPath, MaxFds, State, Consistent, Distinct, NonEmpty;
      hide Wired, Linear, FreshPids;
      ghost var b := Book();
      ExitRecorded(world.tree, p, reaped, status, result);
      ReportsExit(world.tree, result, reports, node.id, code);
      result := result[node.id := Some(code)];
      assert Book() == b;
      if father.Some? {
        ghost var q, k := p[..|p| - 1], p[|p| - 1];
        FatherHears(world.tree, p, father.value, node.id, reaped, status, result);
        HandleOperandsNodeExecutionCompleted(father.value, node, q, k, node.id);
      }
    }

    /** to_wait-- */
    method FinishWait(ghost x: nat)
      modifies `toWait, `reaped
      ensures toWait == old(toWait) - 1 && reaped == old(reaped) + {x}
      ensures Book() == old(Book()).(reaped := reaped, toWait := toWait)
    {
      toWait := toWait - 1;
      reaped := reaped + {x};
    }

    /** manage_running_nodes_and_collect_data, with the kernel's answers to wait3 as `schedule`.
        If the schedule ends first, the engine is blocked in wait3. `heads` are the states at the heads
        of the loop; without turns that handle no exit, as many turns as there are executables are
        enough. */
    method ManageRunningNodesAndCollectData(schedule: seq<nat>) returns (finished: bool, ghost heads: seq<Head>)
      requires Valid()
      modifies this, table, table.fds
      ensures Valid()
      ensures finished <==> toWait == 0
      ensures old(reaped) <= reaped <= Execs(world.tree)
      ensures finished ==> FinalResults(world.tree, status, result)
      ensures !finished ==> Blocked()
      ensures Follows(world.tree, status, heads, schedule)
      ensures heads[0] == old(Snapshot()) && heads[|heads| - 1] == Snapshot()
      ensures |schedule| >= |Execs(world.tree) - old(reaped)| + Wasted(heads) ==> finished
      ensures AllNamed(old(children), schedule, reaped)
    {
      hide Accounts, Valid, FinalResults, Blocked, Execs, ExitsNext, Wasted, Turn, Sound, AllNamed, Taken, WaitedFor;
      AtMostAllReaped();
      IsSound();
      var t := 0;
      heads := [Snapshot()];
      NoTurns(world.tree, status, heads, schedule, old(children), waited);
      while toWait > 0 && t < |schedule|
        invariant Valid() && table == old(table) && old(children) <= children
        invariant old(reaped) <= reaped <= Execs(world.tree)
        invariant t <= |schedule| && |heads| == t + 1 && heads[0] == old(Snapshot()) && heads[t] == Snapshot()
        invariant Taken(world.tree, status, heads, schedule)
        invariant WaitedFor(old(children), schedule, t, waited)
        invariant t == |reaped - old(reaped)| + Wasted(heads)
        decreases |schedule| - t
      {
        ghost var before := Snapshot();
        WaitOnce(schedule[t]);
        TurnWaits(before, Snapshot(), old(children), schedule, t);
        TurnCounts(old(reaped), before, Snapshot(), schedule[t]);
        WastedSnoc(heads, Snapshot());
        AtMostAllReaped();
        IsSound();
        OneMoreTaken(world.tree, status, heads, schedule, Snapshot());
        heads := heads + [Snapshot()];
        t := t + 1;
      }
      AtMostAllReaped();
      if toWait > 0 {
        SomeLeft(old(reaped), reaped, Execs(world.tree));
      }
      AllWaited(old(children), schedule);
      finished := toWait == 0;
    }

    lemma IsSound()
      requires Valid()
      ensures Sound(world.tree, status, Snapshot())
    {
      hide PipesOk, TableOk, PidsOk, StartsOk, ReportsOk, Wired, Linear, FreshPids, State, Consistent, Ids, Execs;
      forall x ensures ExecutableChild(x) in children <==> x in Execs(world.tree) && x in result {
        if x in childOf {
          assert children[childOf[x]] == ExecutableChild(x);
        }
      }
    }

    static lemma NoTurns(tree: Node, st: Status, heads: seq<Head>, schedule: seq<nat>, children: seq<Child>,
        waited: set<nat>)
      requires |heads| == 1 && Sound(tree, st, heads[0])
      ensures Wasted(heads) == 0 && Taken(tree, st, heads, schedule) && WaitedFor(children, schedule, 0, waited)
    {
      hide Sound;
    }

    /** What a turn does to the children that have been waited for. */
    static lemma TurnWaits(h: Head, h': Head, first: seq<Child>, schedule: seq<nat>, t: nat)
      requires t < |schedule| && Turn(h, h', schedule[t]) && first <= h.children
      requires WaitedFor(first, schedule, t, h.waited)
      ensures h.children <= h'.children && h.waited <= h'.waited
      ensures WaitedFor(first, schedule, t + 1, h'.waited)
    {
    }

    /** A turn handles one exit or none. */
    static lemma TurnCounts(begin: set<nat>, h: Head, h': Head, c: nat)
      requires begin <= h.reaped && Turn(h, h', c)
      ensures begin <= h'.reaped
      ensures |h'.reaped - begin| == |h.reaped - begin| + if h'.reaped == h.reaped then 0 else 1
    {
      OneMoreReaped(begin, h.reaped, h'.reaped);
    }

    /** All children that the schedule names have been waited for, or nothing is left to wait for. */
    lemma AllWaited(first: seq<Child>, schedule: seq<nat>)
      requires Valid() && first <= children
      requires toWait == 0 || WaitedFor(first, schedule, |schedule|, waited)
      ensures AllNamed(first, schedule, reaped)
    {
      hide PipesOk, TableOk, PidsOk, StartsOk, ReportsOk, Wired, Linear, FreshPids, State, Consistent, Ids, Execs;
      if toWait == 0 {
        assert childOf.Keys - reaped == {};
      }
      forall i | i in schedule && i < |first| && first[i].ExecutableChild? ensures first[i].id in reaped {
        assert children[i] == first[i];
        if toWait > 0 {
          var u :| 0 <= u < |schedule| && schedule[u] == i;
        }
      }
    }

    /** From every state some schedule finishes the run, without a wasted turn: one that reports an
        executable each time. */
    method RunToEnd() returns (schedule: seq<nat>)
      requires Valid()
      modifies this, table, table.fds
      ensures Valid() && toWait == 0 && FinalResults(world.tree, status, result)
      ensures |schedule| <= |Execs(world.tree) - old(reaped)|
      ensures |schedule| == |reaped - old(reaped)|
    {
      hide Accounts, Valid, FinalResults, Execs;
      AtMostAllReaped();
      schedule := [];
      while toWait > 0
        invariant Valid() && table == old(table)
        invariant toWait >= 0 && old(reaped) <= reaped <= Execs(world.tree)
        invariant |schedule| == |reaped - old(reaped)|
        decreases Execs(world.tree) - reaped
      {
        ghost var before := reaped;
        AtMostAllReaped();
        var choice :| 0 <= choice < |children| && choice !in waited && children[choice].ExecutableChild?;
        WaitOnce(choice);
        OneMoreReaped(old(reaped), before, reaped);
        AtMostAllReaped();
        schedule := schedule + [choice];
      }
      AtMostAllReaped();
      Fewer(reaped - old(reaped), Execs(world.tree) - old(reaped));
    }

    static lemma OneMoreReaped(begin: set<nat>, before: set<nat>, after: set<nat>)
      requires begin <= before
      ensures forall x :: x !in before && after == before + {x} ==> |after - begin| == |before - begin| + 1
    {
      forall x | x !in before && after == before + {x} ensures |after - begin| == |before - begin| + 1 {
        assert after - begin == (before - begin) + {x};
      }
    }

    static lemma Fewer(some: set<nat>, all: set<nat>)
      requires some <= all
      ensures |some| <= |all| && (some != all ==> |some| < |all|)
    {
      assert all == some + (all - some);
    }

    static lemma SomeLeft(begin: set<nat>, now: set<nat>, all: set<nat>)
      requires begin <= now <= all && now != all
      ensures |now - begin| < |all - begin|
    {
      var x :| x in all && x !in now;
      assert x in all - begin && x !in now - begin;
      Fewer(now - begin, all - begin);
    }

    lemma AtMostAllReaped()
      requires Valid()
      ensures reaped <= Execs(world.tree) && toWait >= 0
      ensures toWait == 0 ==> FinalResults(world.tree, status, result)
      ensures toWait > 0 ==> Blocked() && reaped != Execs(world.tree)
    {
      hide PipesOk, TableOk, PidsOk;
      if toWait == 0 {
        RunOutcome(world, Book(), status, result);
      } else {
        StillRunning(world, Book(), waited);
      }
    }

    /** Start-once and end-once over a whole run: every node is started at most once and every operator
        reports its end at most once; when nothing is left to wait for, the nodes the evaluator
        reaches have been started, and its operators have reported, exactly once. */
    lemma StartOnceEndOnce(x: nat)
      requires Valid()
      ensures multiset(started)[x] == if x in result then 1 else 0
      ensures multiset(reports)[x] == if x in result && result[x].Some? && x !in Execs(world.tree) then 1 else 0
      ensures toWait == 0 ==> NonEmpty(world.tree)
      ensures toWait == 0 ==> multiset(started)[x] == if x in Reached(world.tree, status) then 1 else 0
      ensures toWait == 0 ==>
                multiset(reports)[x] == if x in Reached(world.tree, status) && x !in Execs(world.tree) then 1 else 0
    {
      hide PipesOk, TableOk, PidsOk, Reached, Execs, Ids, Wired, Linear, FreshPids, State, Consistent, Distinct;
      if toWait == 0 {
        RunOutcome(world, Book(), status, result);
        ReachedAreIds(world.tree, status);
        if x in Reached(world.tree, status) {
          var p := PathTo(world.tree, x);
          assert At(world.tree, p).id in Reached(world.tree, status);
        }
      }
    }

    /** execute: runs the whole tree. Every schedule is possible; the run ends with the results of
        the evaluator or waits for an executable that has not exited. */
    method Execute(schedule: seq<nat>) returns (finished: bool, ghost heads: seq<Head>)
      requires GoodWorld(world)
      requires result == map[] && children == [] && waited == {} && pid == world.garbage
      requires initialized == {} && openEnds == {} && pipeCalls == multiset{} && failedCloses == 0
      requires reaped == {} && childOf == map[] && started == [] && reports == []
      modifies this
      ensures Valid()
      ensures finished <==> toWait == 0
      ensures reaped <= Execs(world.tree)
      ensures finished ==> FinalResults(world.tree, status, result)
      ensures !finished ==> Blocked()
      ensures Follows(world.tree, status, heads, schedule) && heads[|heads| - 1] == Snapshot()
      ensures heads[0].children == ForkOrder(world.tree) && heads[0].waited == {} && heads[0].reaped == {}
      ensures |schedule| >= |Execs(world.tree)| + Wasted(heads) ==> finished
      ensures AllNamed(ForkOrder(world.tree), schedule, reaped)
    {
      hide Accounts, Valid, FinalResults, Blocked, Execs, Wasted, Follows, AllNamed, ForkOrder;
      var maxFds := CountMaxAppenderFileDescriptors(world.tree);
      table := new AppenderTable(maxFds);
      toWait := 0;
      StartRoot();
      finished, heads := ManageRunningNodesAndCollectData(schedule);
    }

    /** execute_async(root) */
    method StartRoot()
      requires GoodWorld(world) && table.Valid() && table.contents == [] && table.fds.Length == MaxFds(world.tree)
      requires result == map[] && children == [] && waited == {} && pid == world.garbage && toWait == 0
      requires initialized == {} && openEnds == {} && pipeCalls == multiset{} && failedCloses == 0
      requires reaped == {} && childOf == map[] && started == [] && reports == []
      modifies this, table, table.fds
      ensures Valid() && table == old(table)
      ensures children == ForkOrder(world.tree) && waited == {} && reaped == {}
    {
      hide ForkOrder, Ids, Execs, State, Consistent, PipesOk, TableOk, ChildrenOk, PidsOk, WaitOk, Wired, Linear;
      hide FreshPids, Distinct;
      EmptyBooks(world, Book());
      EmptyResults(world.tree, result);
      ExecuteAsync(world.tree, []);
      NothingExitedConsistent(world.tree, {}, status);
      NoneWaited(Book());
    }
  }
}
