/** The four operators and the wait statuses, one by one: what the evaluator says about each of them
    in terms of its operands alone (sections 2.9.2 and 2.9.3 of the POSIX Shell Command Language). */
module Operators {
  import opened Nodes
  import opened Semantics

  /** How a process ends. The core flag says whether a signal left a memory image. */
  datatype Ending = Exited(code: nat) | Killed(signal: nat, core: bool)

  /** The status wait3 reports for it. */
  function WaitStatus(e: Ending): (status: int)
    ensures e == Exited(1) ==> status == 256
    ensures e == Killed(9, false) ==> status == 9
    ensures e == Killed(11, true) ==> status == 139
  {
    match e
    case Exited(code) => 256 * code
    case Killed(signal, core) => signal + if core then 128 else 0
  }

  predicate Possible(e: Ending) {
    match e
    case Exited(code) => code < 256
    case Killed(signal, _) => 1 <= signal < 127
  }

  /** Success is a process that has exited with 0, and nothing else: no other exit code, no signal. */
  lemma OkExactly(e: Ending)
    requires Possible(e)
    ensures Ok(WaitStatus(e)) <==> e == Exited(0)
    ensures Ok(0) && !Ok(256) && !Ok(9) && !Ok(139)
  {
    match e
    case Exited(code) => assert 256 * code / 256 == code;
    case Killed(signal, core) => assert WaitStatus(e) % 128 == signal;
  }

  lemma ExecutableRuns(id: nat, argv: seq<string>, st: Status)
    ensures Eval(Executable(id, argv), st) == st(id)
    ensures Reached(Executable(id, argv), st) == {id}
  {
  }

  /** And: operand i runs exactly if all before it succeed; the code is that of the first operand that
      fails, and 0 if none does. */
  lemma AndRuns(id: nat, nodes: seq<Node>, st: Status)
    requires NonEmpty(Operands(id, And, nodes))
    ensures forall i :: 0 <= i < |nodes| && !Ok(Eval(nodes[i], st)) ==>
              (forall j :: 0 <= j < i ==> Ok(Eval(nodes[j], st))) ==>
                Eval(Operands(id, And, nodes), st) == Eval(nodes[i], st)
    ensures (forall i :: 0 <= i < |nodes| ==> Ok(Eval(nodes[i], st))) ==> Eval(Operands(id, And, nodes), st) == 0
    ensures forall x :: x in Reached(Operands(id, And, nodes), st) <==>
              || x == id
              || (exists i :: 0 <= i < |nodes| && x in Reached(nodes[i], st) &&
                    forall j :: 0 <= j < i ==> Ok(Eval(nodes[j], st)))
  {
    EvalFromLast(Operands(id, And, nodes), 0, st);
  }

  /** Or: operand i runs exactly if all before it fail; the code is 0 if some operand succeeds, otherwise
      that of the last operand. */
  lemma OrRuns(id: nat, nodes: seq<Node>, st: Status)
    requires NonEmpty(Operands(id, Or, nodes))
    ensures (exists i :: 0 <= i < |nodes| && Ok(Eval(nodes[i], st))) ==> Eval(Operands(id, Or, nodes), st) == 0
    ensures (forall i :: 0 <= i < |nodes| ==> !Ok(Eval(nodes[i], st))) ==>
              Eval(Operands(id, Or, nodes), st) == Eval(nodes[|nodes| - 1], st)
    ensures forall x :: x in Reached(Operands(id, Or, nodes), st) <==>
              || x == id
              || (exists i :: 0 <= i < |nodes| && x in Reached(nodes[i], st) &&
                    forall j :: 0 <= j < i ==> !Ok(Eval(nodes[j], st)))
  {
    EvalFromLast(Operands(id, Or, nodes), 0, st);
  }

  /** Semicolon and Pipe: all operands run; the code is that of the last one. */
  lemma AllRun(id: nat, kind: Kind, nodes: seq<Node>, st: Status)
    requires kind == Semicolon || kind == Pipe
    requires NonEmpty(Operands(id, kind, nodes))
    ensures Eval(Operands(id, kind, nodes), st) == Eval(nodes[|nodes| - 1], st)
    ensures forall x :: x in Reached(Operands(id, kind, nodes), st) <==>
              x == id || exists i :: 0 <= i < |nodes| && x in Reached(nodes[i], st)
  {
    EvalFromLast(Operands(id, kind, nodes), 0, st);
    NoStop(Operands(id, kind, nodes), 0, st);
  }
}
