/** The parser (src/parse/parse.c), for texts without quotes, backslashes and redirections. */
module Parse {
  import opened Nodes
  import opened Splitting
  import opened Brackets
  import opened Wire

  /** What a command text stands for: a command tree without addresses. */
  datatype Command = Exec(argv: seq<string>) | Op(kind: Kind, operands: seq<Command>)

  /** No character that starts a quotation, an escape or a redirection. */
  ghost predicate Plain(s: string) {
    forall i :: 0 <= i < |s| ==> s[i] !in {'"', '\\', '<', '>'}
  }

  // ---- the words of a simple command

  function WordLength(s: string): (n: nat)
    ensures n <= |s| && (forall i :: 0 <= i < n ==> s[i] != ' ') && (n < |s| ==> s[n] == ' ')
  {
    if s == "" || s[0] == ' ' then 0 else 1 + WordLength(s[1..])
  }

  /** The group, and the end, of the match of ` *([^"][^ ]*) *` at the start of a text. */
  function WordStart(s: string): (a: nat)
    requires s != ""
    ensures a < |s|
  {
    if Lead(s) == |s| then |s| - 1 else Lead(s)
  }

  function WordEnd(s: string): (b: nat)
    requires s != ""
    ensures WordStart(s) < b <= |s|
  {
    WordStart(s) + 1 + WordLength(s[WordStart(s) + 1..])
  }

  function WordNext(s: string): (c: nat)
    requires s != ""
    ensures WordEnd(s) <= c <= |s|
  {
    WordEnd(s) + Lead(s[WordEnd(s)..])
  }

  /** s[..c] matches ` *([^"][^ ]*) *` with the group s[a..b]. */
  ghost predicate WordMatch(s: string, a: nat, b: nat, c: nat) {
    && a < b <= c <= |s|
    && AllSpaces(s[..a]) && s[a] != '"' && (forall i :: a < i < b ==> s[i] != ' ') && AllSpaces(s[b..c])
  }

  /** Of all matches the leftmost longest is taken, and of those the one whose leading spaces are
      longest. */
  lemma LongestWord(s: string)
    requires s != "" && Plain(s)
    ensures WordMatch(s, WordStart(s), WordEnd(s), WordNext(s))
    ensures forall a: nat, b: nat, c: nat :: WordMatch(s, a, b, c) ==> c <= WordNext(s) && a <= WordStart(s)
  {
    WordParts(s);
    hide WordStart, WordEnd, WordNext, Plain;
    forall a: nat, b: nat, c: nat | WordMatch(s, a, b, c) ensures c <= WordNext(s) && a <= WordStart(s) {
      assert forall i :: 0 <= i < a ==> s[i] == s[..a][i] == ' ';
      assert forall i :: b <= i < c ==> s[i] == s[b..c][i - b] == ' ';
    }
  }

  /** The parts of the match that is taken, character by character. */
  lemma WordParts(s: string)
    requires s != "" && Plain(s)
    ensures WordMatch(s, WordStart(s), WordEnd(s), WordNext(s))
    ensures s[WordStart(s)] == ' ' ==> WordStart(s) == |s| - 1
    ensures WordEnd(s) < |s| ==> s[WordEnd(s)] == ' '
    ensures WordNext(s) < |s| ==> s[WordNext(s)] != ' '
  {
    var x, y, z := WordStart(s), WordEnd(s), WordNext(s);
    LeadIsSpaces(s);
    var tail, after := s[x + 1..], s[y..];
    assert forall i :: x < i < y ==> s[i] == tail[i - x - 1];
    assert y < |s| ==> s[y] == tail[y - x - 1];
    LeadIsSpaces(after);
    hide Lead, WordLength;
    assert s[y..z] == after[..z - y];
    assert z < |s| ==> s[z] == after[z - y];
  }

  lemma LeadIsSpaces(s: string)
    ensures forall i :: 0 <= i < Lead(s) ==> s[i] == ' '
  {
    assert forall i :: 0 <= i < Lead(s) ==> s[i] == s[..Lead(s)][i];
  }

  /** The arguments of a simple command. */
  function Words(s: string): seq<string>
    decreases |s|
  {
    if s == "" then [] else [s[WordStart(s)..WordEnd(s)]] + Words(s[WordNext(s)..])
  }

  lemma FirstWord(s: string)
    ensures s == "" ==> Words(s) == []
    ensures s != "" ==> Words(s) == [s[WordStart(s)..WordEnd(s)]] + Words(s[WordNext(s)..])
    ensures s != "" ==> |s[WordNext(s)..]| < |s|
  {
  }

  /** create_executable_from_string: counts the arguments, fails if there are none, and fills argv.
      (argv's closing null pointer is not represented.) */
  method CreateArguments(text: string) returns (argv: Option<array<string>>)
    requires Plain(text)
    ensures argv.Some? <==> Words(text) != []
    ensures argv.Some? ==> argv.value[..] == Words(text)
  {
    hide Words, WordStart, WordEnd, WordNext;
    var count, str := 0, text;
    FirstWord("");
    while str != ""
      invariant count + |Words(str)| == |Words(text)|
      decreases |str|
    {
      FirstWord(str);
      count := count + 1;
      str := str[WordNext(str)..];
    }
    if count <= 0 {
      return None;
    }
    var args := new string[count](_ => "");
    str := text;
    for i := 0 to count
      invariant i + |Words(str)| == count && args[..i] + Words(str) == Words(text)
    {
      FirstWord(str);
      args[i] := str[WordStart(str)..WordEnd(str)];
      assert args[..i + 1] == args[..i] + [args[i]];
      str := str[WordNext(str)..];
    }
    return Some(args);
  }

  // ---- operators

  /** The first operator of the priority map whose separator occurs outside brackets. */
  function Loosest(s: string): (op: Option<Kind>)
    ensures op.None? ==> forall k :: Occurrences(k, Mask(s)) == 0
    ensures op.Some? ==> Occurrences(op.value, Mask(s)) > 0
    ensures op.Some? ==> forall k :: Rank(k) < Rank(op.value) ==> Occurrences(k, Mask(s)) == 0
  {
    if Occurrences(And, Mask(s)) > 0 then Some(And)
    else if Occurrences(Or, Mask(s)) > 0 then Some(Or)
    else if Occurrences(Pipe, Mask(s)) > 0 then Some(Pipe)
    else if Occurrences(Semicolon, Mask(s)) > 0 then Some(Semicolon)
    else None
  }

  /** The operators in the order of the priority map. */
  const PRIORITY := [And, Or, Pipe, Semicolon]

  lemma LoosestIs(s: string, i: nat)
    requires i <= |PRIORITY| && forall j :: 0 <= j < i ==> Occurrences(PRIORITY[j], Mask(s)) == 0
    requires i < |PRIORITY| ==> Occurrences(PRIORITY[i], Mask(s)) > 0
    ensures Loosest(s) == if i < |PRIORITY| then Some(PRIORITY[i]) else None
  {
    hide Occurrences, Mask;
    assert i > 0 ==> Occurrences(PRIORITY[0], Mask(s)) == 0;
    assert i > 1 ==> Occurrences(PRIORITY[1], Mask(s)) == 0;
    assert i > 2 ==> Occurrences(PRIORITY[2], Mask(s)) == 0;
    assert i > 3 ==> Occurrences(PRIORITY[3], Mask(s)) == 0;
  }

  /** Position in the priority map: the loosest operator comes first. */
  function Rank(k: Kind): nat {
    match k case And => 0 case Or => 1 case Pipe => 2 case Semicolon => 3
  }

  lemma PiecesShorter(op: Kind, s: string)
    requires Occurrences(op, Mask(s)) > 0
    ensures forall i :: 0 <= i < |Split(op, Mask(s), s)| ==> |Split(op, Mask(s), s)[i]| < |s|
  {
    EnoughPieces(op, Mask(s), s);
    AllPiecesShorter(op, Mask(s), s);
  }

  /** The meaning of a text; None is a parse error. */
  function ParseText(raw: string): Option<Command>
    decreases |raw|, 2
  {
    ParseStripped(WithoutBrackets(raw))
  }

  function ParseStripped(s: string): Option<Command>
    decreases |s|, 1
  {
    match Loosest(s)
    case None => if Words(s) == [] then None else Some(Exec(Words(s)))
    case Some(op) =>
      PiecesShorter(op, s);
      match ParseAll(Split(op, Mask(s), s), |s|)
      case None => None
      case Some(operands) => Some(Op(op, operands))
  }

  function ParseAll(pieces: seq<string>, bound: nat): (r: Option<seq<Command>>)
    requires forall i :: 0 <= i < |pieces| ==> |pieces[i]| < bound
    ensures r.Some? ==> |r.value| == |pieces|
    decreases bound, 0, |pieces|
  {
    if pieces == [] then Some([])
    else
      var first, rest := ParseText(pieces[0]), ParseAll(pieces[1..], bound);
      if first.Some? && rest.Some? then Some([first.value] + rest.value) else None
  }

  lemma {:induction false} ParseAllAt(pieces: seq<string>, bound: nat)
    requires forall i :: 0 <= i < |pieces| ==> |pieces[i]| < bound
    ensures ParseAll(pieces, bound).Some? <==> forall i :: 0 <= i < |pieces| ==> ParseText(pieces[i]).Some?
    ensures var r := ParseAll(pieces, bound);
            r.Some? ==> forall i :: 0 <= i < |pieces| ==> ParseText(pieces[i]) == Some(r.value[i])
    decreases |pieces|
  {
    hide ParseText;
    if pieces != [] {
      ParseAllAt(pieces[1..], bound);
      assert forall i :: 0 < i < |pieces| ==> pieces[i] == pieces[1..][i - 1];
    }
  }

  /** The recursion of the parser: an operator node is made from the loosest separator outside
      brackets, has one operand for each piece, and one more than there are separators; the pieces
      are shorter than the text and, if the text is balanced, balanced. */
  lemma ParsedOperator(raw: string)
    requires Balanced(raw) && '\\' !in raw && ParseText(raw).Some? && ParseText(raw).value.Op?
    ensures var s, k, operands := WithoutBrackets(raw), ParseText(raw).value.kind, ParseText(raw).value.operands;
            var pieces := Split(k, Mask(s), s);
            && Balanced(s) && Loosest(s) == Some(k) && |operands| == |pieces| == Occurrences(k, Mask(s)) + 1 >= 2
            && (Join(pieces, Separator(k)) == s <==> !(k == Pipe && Crowded(Mask(s))))
            && forall i :: 0 <= i < |operands| ==> PieceParsed(pieces[i], raw, operands[i])
  {
    hide Words, Balanced, Mask, Occurrences, AllPieces, Strips, Crowded, Join;
    var s := WithoutBrackets(raw);
    StillBalanced(raw);
    var op := Loosest(s).value;
    var pieces := Split(op, Mask(s), s);
    PiecesShorter(op, s);
    ParseAllAt(pieces, |s|);
    SplitReassembles(op, s);
    AllPiecesBalanced(op, s);
    EnoughPieces(op, Mask(s), s);
  }

  lemma StillBalanced(raw: string)
    requires Balanced(raw) && '\\' !in raw
    ensures Balanced(WithoutBrackets(raw)) && '\\' !in WithoutBrackets(raw)
  {
    StripsExactly(raw);
  }

  ghost predicate PieceParsed(piece: string, raw: string, c: Command) {
    |piece| < |raw| && Balanced(piece) && ParseText(piece) == Some(c)
  }

  // ---- the tree

  /** What a tree says apart from its addresses. */
  ghost function Shape(n: Node): Command {
    match n
    case Executable(_, argv) => Exec(argv)
    case Operands(_, kind, nodes) => Op(kind, seq(|nodes|, i requires 0 <= i < |nodes| => Shape(nodes[i])))
  }

  /** n was made for command c from nodes created with numbers from lo up to hi. */
  ghost predicate Built(n: Node, c: Command, lo: nat, hi: nat) {
    Shape(n) == c && Distinct(n) && forall x :: x in Ids(n) ==> lo <= x < hi
  }

  /** The first operands of a node have been made. */
  ghost predicate BuiltAll(nodes: seq<Node>, cs: seq<Command>, lo: nat, hi: nat) {
    && |nodes| == |cs|
    && (forall i :: 0 <= i < |nodes| ==> Built(nodes[i], cs[i], lo, hi))
    && forall i, j :: 0 <= i < j < |nodes| ==> Ids(nodes[i]) !! Ids(nodes[j])
  }

  lemma OneMoreBuilt(nodes: seq<Node>, cs: seq<Command>, lo: nat, mid: nat, n: Node, c: Command, hi: nat)
    requires BuiltAll(nodes, cs, lo, mid) && Built(n, c, mid, hi) && lo <= mid <= hi
    ensures BuiltAll(nodes + [n], cs + [c], lo, hi)
  {
    hide Shape, Distinct, Ids;
  }

  lemma OperatorBuilt(id: nat, kind: Kind, nodes: seq<Node>, cs: seq<Command>, hi: nat)
    requires BuiltAll(nodes, cs, id + 1, hi) && id < hi
    ensures Built(Operands(id, kind, nodes), Op(kind, cs), id, hi)
  {
    var n := Operands(id, kind, nodes);
    assert Shape(n).operands == cs;
    forall x | x in Ids(n) ensures id <= x < hi {
      if x != id {
        var i :| 0 <= i < |nodes| && x in Ids(nodes[i]);
        assert Built(nodes[i], cs[i], id + 1, hi);
      }
    }
    assert forall i :: 0 <= i < |nodes| ==> Built(nodes[i], cs[i], id + 1, hi);
  }

  /** Parsed operators have at least two operands. */
  ghost predicate WideCommand(c: Command) {
    c.Op? ==> |c.operands| >= 2 && forall i :: 0 <= i < |c.operands| ==> WideCommand(c.operands[i])
  }

  lemma {:induction false} ParsedIsWide(raw: string)
    requires ParseText(raw).Some?
    ensures WideCommand(ParseText(raw).value)
    decreases |raw|
  {
    hide Words;
    var s := WithoutBrackets(raw);
    if Loosest(s).Some? {
      var op := Loosest(s).value;
      var pieces := Split(op, Mask(s), s);
      PiecesShorter(op, s);
      ParseAllAt(pieces, |s|);
      forall i | 0 <= i < |pieces| ensures WideCommand(ParseText(pieces[i]).value) {
        ParsedIsWide(pieces[i]);
      }
    }
  }

  lemma {:induction false} WideNode(n: Node)
    requires WideCommand(Shape(n))
    ensures NonEmpty(n) && WidePipes(n)
  {
    if n.Operands? {
      forall i | 0 <= i < |n.nodes| ensures NonEmpty(n.nodes[i]) && WidePipes(n.nodes[i]) {
        assert Shape(n).operands[i] == Shape(n.nodes[i]);
        WideNode(n.nodes[i]);
      }
    }
  }

  class Parser {
    /** Number of nodes created; the next one is created at this address. */
    var created: nat

    /** create_tree_from_string, up to the built-in commands: the tree is one the rest of the program
        can work with. */
    method CreateTreeFromString(raw: string) returns (tree: Option<Node>)
      requires Plain(raw)
      modifies this
      ensures tree.Some? <==> ParseText(raw).Some?
      ensures tree.Some? ==> Shape(tree.value) == ParseText(raw).value
      ensures tree.Some? ==> WellFormed(tree.value) && WidePipes(tree.value)
    {
      hide ParseText, Shape, Distinct, NonEmpty, WidePipes;
      tree := CreateNodeFromString(raw);
      if tree.Some? {
        ParsedIsWide(raw);
        WideNode(tree.value);
      }
    }

    /** create_node_from_string. None stands for the parse error that ends the program. */
    method CreateNodeFromString(raw: string) returns (parsed: Option<Node>)
      requires Plain(raw)
      modifies this
      ensures old(created) <= created
      ensures parsed.Some? <==> ParseText(raw).Some?
      ensures parsed.Some? ==> Built(parsed.value, ParseText(raw).value, old(created), created)
      decreases |raw|, 1
    {
      hide Words, Built, Split, Occurrences, Mask, Loosest, Plain, Strips;
      var s := RemoveBracketsIfAlone(raw);
      PlainPart(raw, s);
      for i := 0 to |PRIORITY|
        invariant created == old(created)
        invariant forall j :: 0 <= j < i ==> Occurrences(PRIORITY[j], Mask(s)) == 0
      {
        var pieces := CreateSplitForOperator(s, PRIORITY[i]);
        if pieces.Length > 1 {
          LoosestIs(s, i);
          parsed := CreateOperandsFromString(pieces, PRIORITY[i], s);
          return;
        }
      }
      LoosestIs(s, |PRIORITY|);
      parsed := CreateExecutableFromString(s);
    }

    /** create_pipe_from_strings and create_operands_from_string */
    method CreateOperandsFromString(pieces: array<string>, kind: Kind, ghost s: string) returns (parsed: Option<Node>)
      requires forall i :: 0 <= i < pieces.Length ==> |pieces[i]| < |s| && Plain(pieces[i])
      modifies this
      ensures old(created) <= created
      ensures parsed.Some? <==> ParseAll(pieces[..], |s|).Some?
      ensures parsed.Some? ==> Built(parsed.value, Op(kind, ParseAll(pieces[..], |s|).value), old(created), created)
      decreases |s|, 0
    {
      hide Built, BuiltAll, ParseText, ParseAll;
      var id := created;
      created := created + 1;
      var nodes: seq<Node> := [];
      ghost var cs: seq<Command> := [];
      ParseAllAt(pieces[..], |s|);
      NoneBuilt(created);
      for i := 0 to pieces.Length
        invariant id < created && |cs| == i
        invariant BuiltAll(nodes, cs, id + 1, created)
        invariant forall j :: 0 <= j < i ==> ParseText(pieces[j]) == Some(cs[j])
      {
        ghost var mid := created;
        var node := CreateNodeFromString(pieces[i]);
        assert pieces[..][i] == pieces[i];
        if node.None? {
          return None;
        }
        OneMoreBuilt(nodes, cs, id + 1, mid, node.value, ParseText(pieces[i]).value, created);
        nodes := nodes + [node.value];
        cs := cs + [ParseText(pieces[i]).value];
      }
      assert cs == ParseAll(pieces[..], |s|).value;
      OperatorBuilt(id, kind, nodes, cs, created);
      return Some(Operands(id, kind, nodes));
    }

    method CreateExecutableFromString(s: string) returns (parsed: Option<Node>)
      requires Plain(s)
      modifies this
      ensures old(created) <= created
      ensures parsed.Some? <==> Words(s) != []
      ensures parsed.Some? ==> Built(parsed.value, Exec(Words(s)), old(created), created)
    {
      var argv := CreateArguments(s);
      if argv.None? {
        return None;
      }
      parsed := Some(Executable(created, argv.value[..]));
      created := created + 1;
    }
  }

  lemma NoneBuilt(lo: nat)
    ensures BuiltAll([], [], lo, lo)
  {
  }

  lemma PlainPart(raw: string, s: string)
    requires Plain(raw) && s == WithoutBrackets(raw)
    ensures Plain(s)
  {
  }

  lemma {:induction false} PiecesPlain(op: Kind, m: string, s: string)
    requires |m| == |s| && Plain(s)
    ensures forall i :: 0 <= i < |AllPieces(op, m, s)| ==> Plain(AllPieces(op, m, s)[i])
    decreases |m|
  {
    hide AllPieces;
    OneTurn(op, m, s);
    var j := First(op, m, 0);
    if j < |m| {
      var k := j + |Separator(op)|;
      PiecesPlain(op, m[k..], s[k..]);
    }
  }

  /** create_split_for_operator */
  method CreateSplitForOperator(s: string, op: Kind) returns (pieces: array<string>)
    ensures pieces[..] == Split(op, Mask(s), s) && pieces.Length == Occurrences(op, Mask(s)) + 1
    ensures Plain(s) ==> forall i :: 0 <= i < pieces.Length ==> Plain(pieces[i])
    ensures pieces.Length > 1 ==> forall i :: 0 <= i < pieces.Length ==> |pieces[i]| < |s|
  {
    hide Plain, AllPieces, Occurrences;
    var obfuscated := ObfuscateBracketsInString(s);
    pieces := SplitObfuscatedString(obfuscated[..], op, s);
    if Plain(s) {
      PiecesPlain(op, Mask(s), s);
    }
    EnoughPieces(op, Mask(s), s);
    if pieces.Length > 1 {
      PiecesShorter(op, s);
    }
    assert forall i :: 0 <= i < pieces.Length ==> pieces[i] == pieces[..][i];
  }
}
