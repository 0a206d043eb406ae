/** A whole run: built-in commands, wiring, execution. */
module EndToEnd {
  import opened Nodes
  import opened Semantics
  import opened Streams
  import opened Wire
  import opened Builtin
  import opened CdBuiltin
  import opened Accounting
  import opened Execution
  import opened HeldEnds
  import opened Parse
  import opened Printer

  /** The engine has run its tree as the schedule says: from the processes that starting the root forks,
      every choice has been followed as long as there was something to wait for; the run has ended if
      there are as many turns as executables besides those that handle no exit; and every executable
      that the schedule names among the first processes has been reported. */
  ghost predicate HasRun(engine: Engine, schedule: seq<nat>, finished: bool, heads: seq<Head>)
    reads engine
  {
    && Follows(engine.world.tree, engine.status, heads, schedule)
    && heads[0].children == ForkOrder(engine.world.tree) && heads[0].waited == {} && heads[0].reaped == {}
    && heads[|heads| - 1] == engine.Snapshot()
    && (|schedule| >= |Execs(engine.world.tree)| + Wasted(heads) ==> finished)
    && AllNamed(ForkOrder(engine.world.tree), schedule, engine.reaped)
  }

  /** A lone command has no father: it stays, and a cd gets its own directory. */
  ghost predicate LoneCd(root: Node, before: map<nat, seq<string>>, after: map<nat, seq<string>>) {
    root.Executable? ==>
      && root.id in before && root.id in after
      && (|root.argv| == 2 && root.argv[0] == "cd" ==> after[root.id] == before[root.id] + [root.argv[1]])
      && (!(|root.argv| == 2 && root.argv[0] == "cd") ==> after[root.id] == before[root.id])
  }

  /** wire_redirects followed by execute, on a tree without redirects: both are over the same tree. */
  method WireAndExecute(tree: Node, forkPid: nat -> int, garbage: map<nat, int>, status: Status, schedule: seq<nat>)
    returns (engine: Engine, finished: bool, ghost heads: seq<Head>)
    requires WellFormed(tree) && WidePipes(tree)
    requires FreshPids(World(tree, Wiring(map[], map[], map[]), forkPid, garbage))
    ensures engine.world.tree == tree && NonEmpty(tree)
    ensures Closed(engine.world.wiring, tree)
    ensures Conserved(engine.world.wiring, tree, Descriptor(STDIN_FILENO), Descriptor(STDOUT_FILENO), 0,
                      PipeCount(tree))
    ensures engine.Valid() && engine.status == status
    ensures finished <==> engine.toWait == 0
    ensures finished ==> FinalResults(tree, status, engine.result)
    ensures !finished ==> engine.Blocked()
    ensures HasRun(engine, schedule, finished, heads)
    ensures forall t :: t in engine.openEnds <==> Awaited(engine.world.wiring, tree, engine.result.Keys, t)
  {
    hide FinalResults, Conserved, Connected, Wired, Linear, FreshPids, Distinct, NonEmpty, WidePipes, Ids, PipeCount;
    hide BooksOk, ReportsOk, State, Consistent, WaitedOk, Wire.AgreeOff, Awaited, Follows, Wasted, AllNamed, ForkOrder;
    hide Execs;
    var wirer := new Wirer();
    wirer.WireRedirects(tree);
    var world := World(tree, Wiring(wirer.stdIn, wirer.stdOut, wirer.appender), forkPid, garbage);
    SamePids(world);
    engine := new Engine(world, status);
    finished, heads := engine.Execute(schedule);
    HeldInRun(engine);
  }

  /** apply_builtin followed by execute on a redirect-free tree. The tree that is wired and executed
      is the one the operator lists hold after the elimination of the cds. Whatever the pids, the exit
      statuses and the order of the exits are: if the run ends, the results are those of evaluating
      that tree, and at its end as at every wait the parent holds exactly the write ends of the
      operands that have not been started. */
  method ApplyBuiltinAndExecute(root: Node, commands: CommandTree, forkPid: nat -> int, garbage: map<nat, int>,
    status: Status, schedule: seq<nat>) returns (engine: Engine, finished: bool, ghost heads: seq<Head>)
    requires WellFormed(root) && WidePipes(root) && NoneEmptied(root) && CdSafe(root) && Holds(commands.S(), root)
    requires FreshPids(World(Rewritten(root), Wiring(map[], map[], map[]), forkPid, garbage))
    modifies commands
    ensures Applied(root, old(commands.S()), commands.S())
    ensures Eliminated(root, old(commands.cd), commands.S()) && LoneCd(root, old(commands.cd), commands.cd)
    ensures Reads(commands.S(), root, engine.world.tree)
    ensures engine.world.tree == Rewritten(root) && NonEmpty(engine.world.tree)
    ensures Closed(engine.world.wiring, engine.world.tree)
    ensures Conserved(engine.world.wiring, engine.world.tree, Descriptor(STDIN_FILENO), Descriptor(STDOUT_FILENO), 0,
                      PipeCount(engine.world.tree))
    ensures engine.Valid() && engine.status == status
    ensures finished <==> engine.toWait == 0
    ensures finished ==> FinalResults(engine.world.tree, status, engine.result)
    ensures !finished ==> engine.Blocked()
    ensures HasRun(engine, schedule, finished, heads)
    ensures forall t :: t in engine.openEnds <==>
              Awaited(engine.world.wiring, engine.world.tree, engine.result.Keys, t)
  {
    hide FinalResults, Applied, Conserved, Closed, FreshPids, Distinct, NonEmpty, WidePipes, Rewritten, PipeCount;
    hide CdSafe, NoneEmptied, Holds, SameElsewhere, Reads, Awaited, Eliminated, HasRun, LoneCd;
    commands.ApplyCdBuiltin(root);
    LoneCommand(root, old(commands.S()), commands.S());
    ItsOwn(root, old(commands.S()), commands.cd);
    var tree := commands.CurrentTree(root, old(commands.S()));
    AppliedReads(root, old(commands.S()), commands.S());
    ReadsOne(commands.S(), root, tree, Rewritten(root));
    RewrittenReady(root);
    engine, finished, heads := WireAndExecute(tree, forkPid, garbage, status, schedule);
  }

  lemma ItsOwn(root: Node, s: Store, after: map<nat, seq<string>>)
    requires Holds(s, root)
    requires root.Executable? && |root.argv| == 2 && root.argv[0] == "cd" ==>
               after == s.cd[root.id := s.cd[root.id] + [root.argv[1]]]
    requires root.Executable? && !(|root.argv| == 2 && root.argv[0] == "cd") ==> after == s.cd
    ensures LoneCd(root, s.cd, after)
  {
  }

  /** Nothing has to be said about a tree without operators. */
  lemma LoneCommand(n: Node, s: Store, t: Store)
    ensures n.Executable? ==> Applied(n, s, t)
  {
  }

  // ---- from the text to the results

  predicate IsCdCommand(c: Command) {
    c.Exec? && |c.argv| == 2 && c.argv[0] == "cd"
  }

  /** In every And, Or and Semicolon some operand is no cd, and what follows a cd is no operator. */
  ghost predicate CdReady(c: Command) {
    c.Op? ==>
      && (forall i :: 0 <= i < |c.operands| ==> CdReady(c.operands[i]))
      && (c.kind != Pipe ==>
            && (exists i :: 0 <= i < |c.operands| && !IsCdCommand(c.operands[i]))
            && forall i, j :: 0 <= i < j < |c.operands| && IsCdCommand(c.operands[i]) ==> c.operands[j].Exec?)
  }

  lemma {:induction false} SurvivorsExist(nodes: seq<Node>, i: nat)
    requires i < |nodes| && !IsCd(nodes[i])
    ensures Survivors(nodes) != []
  {
    if i > 0 {
      SurvivorsExist(nodes[1..], i - 1);
    }
  }

  lemma {:induction false} CdReadyNode(n: Node)
    requires CdReady(Shape(n)) && NonEmpty(n)
    ensures CdSafe(n) && NoneEmptied(n)
  {
    if n.Operands? {
      var cs := Shape(n).operands;
      assert forall i :: 0 <= i < |n.nodes| ==> cs[i] == Shape(n.nodes[i]);
      forall i | 0 <= i < |n.nodes| ensures CdSafe(n.nodes[i]) && NoneEmptied(n.nodes[i]) {
        CdReadyNode(n.nodes[i]);
      }
      if n.kind != Pipe {
        var i :| 0 <= i < |cs| && !IsCdCommand(cs[i]);
        assert !IsCd(n.nodes[i]);
        SurvivorsExist(n.nodes, i);
        forall i, j | 0 <= i < j < |n.nodes| && IsCd(n.nodes[i]) ensures n.nodes[j].Executable? {
          assert IsCdCommand(cs[i]) && cs[j].Exec?;
        }
      }
    }
  }

  /** Every fork gives a new pid, different from what the pid field of any node holds before. */
  ghost predicate FreshForks(forkPid: nat -> int, garbage: nat -> int) {
    && (forall i, j :: forkPid(i) == forkPid(j) ==> i == j)
    && (forall i :: forkPid(i) > 0)
    && (forall x :: garbage(x) != -1)
    && (forall x, i :: garbage(x) != forkPid(i))
  }

  /** From the text of a command to its results: parsing, elimination of cd, wiring, execution. There
      is no engine if the text cannot be parsed; otherwise, for every schedule, a finished run has
      the evaluator's results for the tree that the elimination has left in memory. Every command of it
      starts with the directories of the cds before it and no others. */
  method RunCommand(text: string, parser: Parser, forkPid: nat -> int, garbage: nat -> int, status: Status,
      schedule: seq<nat>)
    returns (engine: Engine?, finished: bool, commands: CommandTree?, ghost tree: Node, ghost heads: seq<Head>)
    requires Plain(text) && (ParseText(text).Some? ==> CdReady(ParseText(text).value))
    requires FreshForks(forkPid, garbage)
    modifies parser
    ensures (engine == null <==> ParseText(text).None?) && (commands == null <==> ParseText(text).None?)
    ensures engine != null ==> Shape(tree) == ParseText(text).value
    ensures engine != null ==> Reads(commands.S(), tree, engine.world.tree) && engine.world.tree == Rewritten(tree)
    ensures engine != null ==> engine.Valid() && engine.status == status && (finished <==> engine.toWait == 0)
    ensures engine != null && finished ==> FinalResults(engine.world.tree, status, engine.result)
    ensures engine != null && !finished ==> engine.Blocked()
    ensures engine != null ==> HasRun(engine, schedule, finished, heads)
    ensures engine != null ==> Eliminated(tree, NoDirectories(tree), commands.S())
    ensures engine != null ==> LoneCd(tree, NoDirectories(tree), commands.cd)
  {
    hide FinalResults, Applied, Conserved, Connected, Closed, Wired, Linear, Distinct, NonEmpty, WidePipes;
    hide Ids, Rewritten, PipeCount;
    hide CdSafe, Holds, NoneEmptied, BooksOk, State, Consistent, WaitedOk, CdReady, ParseText, Shape, Plain;
    hide Reads, Awaited, ReportsOk, Eliminated, HasRun;
    engine, finished, commands, tree, heads := null, false, null, Executable(0, []), [];
    var parsed := parser.CreateTreeFromString(text);
    if parsed.Some? {
      var root := parsed.value;
      tree := root;
      CdReadyNode(root);
      commands := new CommandTree(root);
      var pids := map x | x in Execs(Rewritten(root)) :: garbage(x);
      ghost var s := commands.S();
      engine, finished, heads := ApplyBuiltinAndExecute(root, commands, forkPid, pids, status, schedule);
      FromNothing(root, s, commands.S());
    }
  }

  /** What each executable gets when it has no directories at first. */
  ghost function NoDirectories(tree: Node): map<nat, seq<string>> {
    map x | x in Ids(tree) :: []
  }

  lemma FromNothing(root: Node, s: Store, t: Store)
    requires Holds(s, root) && forall x :: x in s.cd ==> s.cd[x] == []
    ensures Eliminated(root, s.cd, t) ==> Eliminated(root, NoDirectories(root), t)
    ensures LoneCd(root, s.cd, t.cd) ==> LoneCd(root, NoDirectories(root), t.cd)
  {
    assert root.id in Ids(root);
    if Eliminated(root, s.cd, t) {
      EliminatedFrom(root, s.cd, NoDirectories(root), t);
    }
  }

  /** The text of the tree on which one close fails and which hangs if its first command does. */
  lemma GroupInPipeText(tree: Node)
    requires tree == GroupInPipe(["a"], ["b"], ["c"])
    ensures ParseText("(a && b) | c") == Some(Shape(tree))
  {
    hide ParseText;
    var a, b, c := Exec(["a"]), Exec(["b"]), Exec(["c"]);
    var group := Op(And, [a, b]);
    TextOfTwo(And, a, b);
    TextOfTwo(Pipe, group, c);
    assert Text(Op(Pipe, [group, c])) == "(a && b) | c";
    assert Printable(group);
    RoundTrip(Op(Pipe, [group, c]));
    assert Shape(tree.nodes[0]) == group;
    assert Shape(tree).operands == [group, c];
  }

  lemma SamePids(e: World)
    requires FreshPids(e.(wiring := Wiring(map[], map[], map[])))
    ensures FreshPids(e)
  {
  }
}
