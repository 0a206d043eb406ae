/** What a wired tree looks like, stream by stream (src/parse/builtin.c). */
module Plumbing {
  import opened Nodes
  import opened Streams
  import opened Wire
  import opened HeldEnds

  /** The process of a node reads the pipe: an executable as its standard input, an appender as one of
      its inputs. */
  ghost predicate ReadsPipe(w: Wiring, n: Node, pipe: nat) {
    || (n.Executable? && n.id in w.stdIn && w.stdIn[n.id] == PipeStream(pipe))
    || (n.Operands? && n.kind != Pipe && n.id in w.appender && PipeStream(pipe) in w.appender[n.id].from)
  }

  /** The process of a node writes the pipe: an executable as its standard output, an appender as its
      output. */
  ghost predicate WritesPipe(w: Wiring, n: Node, pipe: nat) {
    || (n.Executable? && n.id in w.stdOut && w.stdOut[n.id] == PipeStream(pipe))
    || (n.Operands? && n.kind != Pipe && n.id in w.appender && w.appender[n.id].to == PipeStream(pipe))
  }

  /** In every Pipe of the tree each operand reads the pipe that the one before it writes, and the outer
      ones use the Pipe's own streams. */
  lemma OperandsChained(w: Wiring, n: Node, p: seq<nat>)
    requires Connected(w, n) && ValidPath(n, p) && At(n, p).Operands? && At(n, p).kind == Pipe
    ensures At(n, p).nodes != [] && At(n, p).id in w.stdIn && At(n, p).id in w.stdOut
    ensures forall i :: 0 <= i < |At(n, p).nodes| ==>
              At(n, p).nodes[i].id in w.stdIn && At(n, p).nodes[i].id in w.stdOut
    ensures var op := At(n, p);
      && w.stdIn[op.nodes[0].id] == w.stdIn[op.id]
      && w.stdOut[op.nodes[|op.nodes| - 1].id] == w.stdOut[op.id]
      && forall i :: 0 < i < |op.nodes| ==>
           w.stdIn[op.nodes[i].id] == w.stdOut[op.nodes[i - 1].id] && w.stdIn[op.nodes[i].id].PipeStream?
  {
    ConnectedAt(w, n, p);
    var op := At(n, p);
    assert forall i :: 0 <= i < |op.nodes| ==> Connected(w, op.nodes[i]);
    forall i | 0 < i < |op.nodes|
      ensures w.stdIn[op.nodes[i].id] == w.stdOut[op.nodes[i - 1].id] && w.stdIn[op.nodes[i].id].PipeStream?
    {
      assert Linked(w, op.nodes, i - 1);
    }
  }

  /** The appender of every And, Or and Semicolon reads what its operands write, in their order, and
      writes where the operator writes; all operands but the first read descriptor 0. */
  lemma OperandsCollected(w: Wiring, n: Node, p: seq<nat>)
    requires Connected(w, n) && ValidPath(n, p) && At(n, p).Operands? && At(n, p).kind != Pipe
    ensures At(n, p).nodes != [] && At(n, p).id in w.stdIn && At(n, p).id in w.stdOut && At(n, p).id in w.appender
    ensures forall i :: 0 <= i < |At(n, p).nodes| ==>
              At(n, p).nodes[i].id in w.stdIn && At(n, p).nodes[i].id in w.stdOut
    ensures var op, a := At(n, p), w.appender[At(n, p).id];
      && a.to == w.stdOut[op.id] && |a.from| == |op.nodes|
      && w.stdIn[op.nodes[0].id] == w.stdIn[op.id]
      && (forall i :: 0 <= i < |op.nodes| ==> a.from[i] == w.stdOut[op.nodes[i].id] && a.from[i].PipeStream?)
      && forall i :: 0 < i < |op.nodes| ==> w.stdIn[op.nodes[i].id] == Descriptor(0)
  {
    ConnectedAt(w, n, p);
    var op, from := At(n, p), w.appender[At(n, p).id].from;
    assert forall i :: 0 <= i < |op.nodes| ==> Connected(w, op.nodes[i]);
    forall i | 0 <= i < |op.nodes|
      ensures from[i] == w.stdOut[op.nodes[i].id] && from[i].PipeStream?
      ensures i > 0 ==> w.stdIn[op.nodes[i].id] == Descriptor(0)
    {
      assert Collected(w, op.nodes, from, i);
    }
  }

  lemma TapsMean(w: Wiring, n: Node, pipe: nat)
    requires Connected(w, n)
    ensures Tap(PipeStream(pipe), ReadEnd) in TapsOf(w, n) <==> ReadsPipe(w, n, pipe)
    ensures Tap(PipeStream(pipe), WriteEnd) in TapsOf(w, n) <==> WritesPipe(w, n, pipe)
  {
    if n.Operands? && n.kind != Pipe && n.id in w.appender {
      var from := w.appender[n.id].from;
      var taps := Taps(from, ReadEnd);
      assert Tap(PipeStream(pipe), ReadEnd) in taps <==> PipeStream(pipe) in from by {
        if PipeStream(pipe) in from {
          var i :| 0 <= i < |from| && from[i] == PipeStream(pipe);
          assert taps[i] == Tap(PipeStream(pipe), ReadEnd);
        }
      }
    }
  }

  lemma UserExists(w: Wiring, n: Node, t: Tap) returns (p: seq<nat>)
    requires t in Gather(n, TapsFn(w))
    ensures ValidPath(n, p) && t in TapsOf(w, At(n, p))
  {
    GatherCongruent(n, TapsFn(w), Among(TapsFn(w), Ids(n)));
    p := UserFound(n, TapsFn(w), Ids(n), t);
  }

  /** Every pipe that the wiring of a tree creates is read by exactly one process of the tree and
      written by exactly one. */
  lemma OneReaderOneWriter(w: Wiring, n: Node, b: nat, pipe: nat) returns (reader: seq<nat>, writer: seq<nat>)
    requires WellFormed(n) && Connected(w, n) && StdIn(w, n).Some? && StdOut(w, n).Some? && pipe < b
    requires Conserved(w, n, StdIn(w, n).value, StdOut(w, n).value, 0, b)
    requires !StdIn(w, n).value.PipeStream? && !StdOut(w, n).value.PipeStream?
    ensures ValidPath(n, reader) && ReadsPipe(w, At(n, reader), pipe)
    ensures ValidPath(n, writer) && WritesPipe(w, At(n, writer), pipe)
    ensures forall p :: ValidPath(n, p) && ReadsPipe(w, At(n, p), pipe) ==> p == reader
    ensures forall p :: ValidPath(n, p) && WritesPipe(w, At(n, p), pipe) ==> p == writer
  {
    hide Conserved, Linear, ReadsPipe, WritesPipe, TapsOf, Distinct, Gather, Connected;
    ConservedIsLinear(w, n, StdIn(w, n).value, StdOut(w, n).value, b);
    var r, t := Tap(PipeStream(pipe), ReadEnd), Tap(PipeStream(pipe), WriteEnd);
    assert r in Gather(n, TapsFn(w)) && t in Gather(n, TapsFn(w));
    reader := UserExists(w, n, r);
    writer := UserExists(w, n, t);
    forall p | ValidPath(n, p)
      ensures r in TapsOf(w, At(n, p)) <==> ReadsPipe(w, At(n, p), pipe)
      ensures t in TapsOf(w, At(n, p)) <==> WritesPipe(w, At(n, p), pipe)
      ensures r in TapsOf(w, At(n, p)) ==> p == reader
      ensures t in TapsOf(w, At(n, p)) ==> p == writer
    {
      ConnectedAt(w, n, p);
      TapsMean(w, At(n, p), pipe);
      if r in TapsOf(w, At(n, p)) {
        OneUser(w, n, p, reader, r);
      }
      if t in TapsOf(w, At(n, p)) {
        OneUser(w, n, p, writer, t);
      }
    }
  }
}
