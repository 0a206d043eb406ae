/** copy_stream (src/common/common.c) and the appender's main loop (src/execute/execute.c). The
    kernel decides how many bytes each read returns; `chunks` is its sequence of choices. */
module Transfer {

  const COPY_BUFFER := 1024

  /** What can still be read from a descriptor, or has been written to it. */
  class Channel {
    var data: string

    constructor (data: string)
      ensures this.data == data
    {
      this.data := data;
    }

    /** read: some of the first bytes, at least one unless the end is reached. */
    method Read(buffer: array<char>, choice: nat) returns (n: nat)
      requires buffer.Length > 0
      modifies this, buffer
      ensures n <= buffer.Length && old(data) == buffer[..n] + data
      ensures n == 0 <==> old(data) == ""
    {
      var most := if |data| < buffer.Length then |data| else buffer.Length;
      n := if most == 0 then 0 else 1 + choice % most;
      for i := 0 to n
        invariant data == old(data) && forall j :: 0 <= j < i ==> buffer[j] == data[j]
      {
        buffer[i] := data[i];
      }
      assert buffer[..n] == data[..n];
      data := data[n..];
    }

    /** my_write: writes everything. */
    method Write(buffer: array<char>, n: nat)
      requires n <= buffer.Length
      modifies this
      ensures data == old(data) + buffer[..n]
    {
      data := data + buffer[..n];
    }
  }

  /** Copies everything, however the reads split it. */
  method CopyStream(from: Channel, to: Channel, chunks: nat -> nat)
    requires from != to
    modifies from, to
    ensures from.data == "" && to.data == old(to.data) + old(from.data)
  {
    var buffer := new char[COPY_BUFFER];
    var turn, more := 0, true;
    while more
      invariant to.data + from.data == old(to.data) + old(from.data)
      invariant !more ==> from.data == ""
      decreases |from.data|, more
    {
      var n := from.Read(buffer, chunks(turn));
      if n > 0 {
        to.Write(buffer, n);
      }
      more := n > 0;
      turn := turn + 1;
    }
  }

  function Concat(parts: seq<string>): string {
    if parts == [] then "" else Concat(parts[..|parts| - 1]) + parts[|parts| - 1]
  }

  lemma ConcatLast(parts: seq<string>)
    ensures Concat([]) == ""
    ensures parts != [] ==> Concat(parts) == Concat(parts[..|parts| - 1]) + parts[|parts| - 1]
  {
  }

  lemma ConcatSnoc(parts: seq<string>, i: nat)
    ensures Concat(parts[..0]) == ""
    ensures i < |parts| ==> Concat(parts[..i + 1]) == Concat(parts[..i]) + parts[i]
  {
    hide Concat;
    ConcatLast([]);
    if i < |parts| {
      ConcatLast(parts[..i + 1]);
      assert parts[..i + 1][..i] == parts[..i];
    }
  }

  /** Concat is concatenation: nothing for nothing, a part for itself, and two lists of parts side by
      side, in their order. */
  lemma {:induction false} ConcatJoins(a: seq<string>, part: string, b: seq<string>)
    ensures Concat([]) == "" && Concat([part]) == part
    ensures Concat(a + b) == Concat(a) + Concat(b)
    decreases |b|
  {
    hide Concat;
    ConcatLast([part]);
    assert [part][..0] == [];
    if b == [] {
      assert a + b == a;
    } else {
      var n := |b| - 1;
      ConcatJoins(a, part, b[..n]);
      ConcatLast(b);
      ConcatLast(a + b);
      assert (a + b)[..|a + b| - 1] == a + b[..n];
      Associative(Concat(a), Concat(b[..n]), b[n]);
    }
  }

  lemma Associative(x: string, y: string, z: string)
    ensures (x + y) + z == x + (y + z)
  {
  }

  function Contents(from: seq<Channel>): (parts: seq<string>)
    reads from
    ensures |parts| == |from| && forall i :: 0 <= i < |from| ==> parts[i] == from[i].data
  {
    seq(|from|, i requires 0 <= i < |from| reads from => from[i].data)
  }

  /** run_appender_main: the output is the concatenation of the operands' outputs in operand order. */
  method RunAppenderMain(from: seq<Channel>, to: Channel, chunks: nat -> nat -> nat)
    requires to !in from && forall i, j :: 0 <= i < j < |from| ==> from[i] != from[j]
    modifies from, to
    ensures to.data == old(to.data) + Concat(old(Contents(from)))
    ensures forall i :: 0 <= i < |from| ==> from[i].data == ""
  {
    hide Concat;
    ghost var parts := Contents(from);
    ConcatSnoc(parts, 0);
    for i := 0 to |from|
      invariant to.data == old(to.data) + Concat(parts[..i])
      invariant forall j :: 0 <= j < i ==> from[j].data == ""
      invariant forall j :: i <= j < |from| ==> from[j].data == parts[j]
    {
      CopyStream(from[i], to, chunks(i));
      ConcatSnoc(parts, i);
    }
    assert parts[..|from|] == parts;
  }
}
