/** Writing a command as text, with brackets only where precedence needs them, and reading it back. */
module Printer {
  import opened Nodes
  import opened Splitting
  import opened Brackets
  import opened Parse

  // ---- the printer

  const SPECIAL := {' ', '"', '\\', '(', ')', '<', '>', '&', '|', ';'}

  ghost predicate PlainWord(w: string) {
    w != "" && forall i :: 0 <= i < |w| ==> w[i] !in SPECIAL
  }

  /** Every operator has two or more operands, every executable one or more plain words. */
  ghost predicate Printable(c: Command) {
    match c
    case Exec(argv) => argv != [] && forall i :: 0 <= i < |argv| ==> PlainWord(argv[i])
    case Op(_, operands) => |operands| >= 2 && forall i :: 0 <= i < |operands| ==> Printable(operands[i])
  }

  /** An operand needs brackets if its operator binds as loosely as its father, or looser. */
  predicate NeedsBrackets(kind: Kind, c: Command) {
    c.Op? && Rank(c.kind) <= Rank(kind)
  }

  function Spaced(kind: Kind): string {
    " " + Separator(kind) + " "
  }

  function Text(c: Command): string
    decreases c, 1
  {
    match c
    case Exec(argv) => if argv == [] then "" else Join(argv, " ")
    case Op(kind, operands) => if operands == [] then "" else Join(Texts(kind, operands), Spaced(kind))
  }

  function Texts(kind: Kind, operands: seq<Command>): (texts: seq<string>)
    ensures |texts| == |operands|
    ensures forall i :: 0 <= i < |operands| ==> texts[i] == Operand(kind, operands[i])
    decreases operands, 1
  {
    seq(|operands|, i requires 0 <= i < |operands| => Operand(kind, operands[i]))
  }

  function Operand(kind: Kind, c: Command): string
    decreases c, 2
  {
    if NeedsBrackets(kind, c) then "(" + Text(c) + ")" else Text(c)
  }

  lemma TextOfTwo(kind: Kind, x: Command, y: Command)
    ensures Text(Op(kind, [x, y])) == Operand(kind, x) + Spaced(kind) + Operand(kind, y)
  {
    var texts := Texts(kind, [x, y]);
    assert texts == [Operand(kind, x), Operand(kind, y)];
    assert Join(texts[1..], Spaced(kind)) == Operand(kind, y);
    assert Join(texts, Spaced(kind)) == Operand(kind, x) + Spaced(kind) + Operand(kind, y);
    assert Op(kind, [x, y]).operands == [x, y];
  }

  // ---- texts without a separator

  /** No text around it can make the operator's separator match inside m. */
  ghost predicate Free(op: Kind, m: string) {
    match op
    case And => '&' !in m
    case Or =>
      && (forall i :: 0 <= i < |m| - 1 ==> m[i] != '|' || m[i + 1] != '|')
      && (m != "" ==> m[0] != '|' && m[|m| - 1] != '|')
    case Pipe => '|' !in m
    case Semicolon => ';' !in m
  }

  lemma FreeConcat(op: Kind, a: string, b: string)
    requires Free(op, a) && Free(op, b)
    ensures Free(op, a + b)
  {
    if op == Or {
      forall i | 0 <= i < |a + b| - 1 ensures (a + b)[i] != '|' || (a + b)[i + 1] != '|' {
        if i + 1 < |a| {
          assert (a + b)[i] == a[i] && (a + b)[i + 1] == a[i + 1];
        } else if i >= |a| {
          assert (a + b)[i] == b[i - |a|] && (a + b)[i + 1] == b[i - |a| + 1];
        }
      }
      assert a + b != "" ==> (a + b)[0] == (if a == "" then b[0] else a[0]);
      assert a + b != "" ==> (a + b)[|a + b| - 1] == (if b == "" then a[|a| - 1] else b[|b| - 1]);
    }
  }

  /** A text without any of the separators' characters. */
  ghost predicate NoSeparatorIn(m: string) {
    forall i :: 0 <= i < |m| ==> m[i] !in {'&', '|', ';'}
  }

  lemma NoSeparatorIsFree(op: Kind, m: string)
    requires NoSeparatorIn(m)
    ensures Free(op, m)
  {
  }

  lemma FreeNoHit(op: Kind, m: string)
    requires Free(op, m)
    ensures Occurrences(op, m) == 0
  {
    forall k | 0 <= k < |m| ensures !Hit(op, m, k) {
    }
    FirstIs(op, m, |m|);
  }

  /** The separator's first match is behind a text that is free of it and ends with a space. */
  lemma FirstAfter(op: Kind, m: string, n: nat)
    requires 0 < n && n + |Separator(op)| < |m| && Free(op, m[..n]) && m[n - 1] == ' '
    requires (forall i :: 0 <= i < |Separator(op)| ==> m[n + i] == Separator(op)[i]) && m[n + |Separator(op)|] == ' '
    ensures First(op, m, 0) == n
  {
    assert forall i :: 0 <= i < n ==> m[..n][i] == m[i];
    assert m[n] == Separator(op)[0] && (|Separator(op)| == 2 ==> m[n + 1] == Separator(op)[1]);
    forall k | 0 <= k < n ensures !Hit(op, m, k) {
      assert m[k] == m[..n][k];
      assert k < n - 1 ==> m[k + 1] == m[..n][k + 1];
    }
    FirstIs(op, m, n);
  }

  lemma FirstBehind(op: Kind, q: string, rest: string)
    requires Free(op, q) && q != "" && q[|q| - 1] == ' ' && rest != "" && rest[0] == ' '
    ensures First(op, q + Separator(op) + rest, 0) == |q|
  {
    hide Free, First;
    ThreeParts(q, Separator(op), rest);
    FirstAfter(op, q + Separator(op) + rest, |q|);
  }

  lemma ThreeParts(q: string, sep: string, rest: string)
    ensures (q + sep + rest)[..|q|] == q && (q + sep + rest)[|q| + |sep|..] == rest
    ensures q != "" ==> (q + sep + rest)[|q| - 1] == q[|q| - 1]
    ensures forall i :: 0 <= i < |sep| ==> (q + sep + rest)[|q| + i] == sep[i]
    ensures rest != "" ==> (q + sep + rest)[|q| + |sep|] == rest[0]
  {
  }

  // ---- masks

  lemma MaskConcat(a: string, b: string)
    requires Balanced(a)
    ensures Mask(a + b) == Mask(a) + Mask(b)
  {
    forall i | 0 <= i < |a + b| ensures Mask(a + b)[i] == (Mask(a) + Mask(b))[i] {
      if i < |a| {
        assert (a + b)[..i] == a[..i];
      } else {
        assert (a + b)[..i] == a + b[..i - |a|];
        DepthConcat(a, b[..i - |a|]);
      }
    }
  }

  lemma FlatMask(s: string)
    requires '(' !in s && ')' !in s
    ensures Mask(s) == s && Balanced(s)
  {
    forall i | 0 <= i <= |s| ensures Depth(s[..i]) == 0 {
      NoBrackets(s[..i]);
    }
    assert s[..|s|] == s;
  }

  lemma BracketedMask(x: string)
    requires Balanced(x)
    ensures Balanced("(" + x + ")")
    ensures NoSeparatorIn(Mask("(" + x + ")"))
  {
    var s := "(" + x + ")";
    forall i: nat | i <= |x| ensures Depth(s[..i + 1]) == 1 + Depth(x[..i]) {
      assert s[..i + 1] == "(" + x[..i];
      DepthConcat("(", x[..i]);
      assert "("[..0] == "";
    }
    assert s[..0] == "" && x[..|x|] == x && s[..|x| + 2] == s;
    DepthSnoc(s, |x| + 1);
    forall i | 0 <= i <= |s| ensures Depth(s[..i]) >= 0 {
      if 0 < i <= |x| + 1 {
        assert Depth(s[..(i - 1) + 1]) == 1 + Depth(x[..i - 1]);
      }
    }
    forall i: nat | i < |s| ensures Mask(s)[i] == '#' {
      if i > 0 {
        assert Depth(s[..(i - 1) + 1]) == 1 + Depth(x[..i - 1]);
      }
    }
  }

  // ---- cutting a printed text

  function Padded(l: string, texts: seq<string>, kind: Kind, r: string): string
    requires texts != []
    decreases |texts|
  {
    if |texts| == 1 then l + texts[0] + r
    else (l + texts[0] + " ") + Separator(kind) + Padded(" ", texts[1..], kind, r)
  }

  function PiecesOf(l: string, texts: seq<string>, r: string): (pieces: seq<string>)
    requires texts != []
    ensures |pieces| == |texts|
    ensures forall i :: 0 <= i < |texts| ==>
              pieces[i] == (if i == 0 then l else " ") + texts[i] + (if i == |texts| - 1 then r else " ")
    decreases |texts|
  {
    if |texts| == 1 then [l + texts[0] + r] else [l + texts[0] + " "] + PiecesOf(" ", texts[1..], r)
  }

  lemma {:induction false} PaddedIsJoin(l: string, texts: seq<string>, kind: Kind, r: string)
    requires texts != []
    ensures Padded(l, texts, kind, r) == l + Join(texts, Spaced(kind)) + r
    decreases |texts|
  {
    if |texts| > 1 {
      PaddedIsJoin(" ", texts[1..], kind, r);
      assert Spaced(kind) == " " + Separator(kind) + " ";
    }
  }

  lemma SpacesFlat(s: string)
    requires AllSpaces(s)
    ensures Mask(s) == s && Balanced(s) && NoSeparatorIn(s)
  {
    FlatMask(s);
  }

  /** Spaces around a text change nothing that matters. */
  lemma PadFree(op: Kind, l: string, t: string, r: string)
    requires AllSpaces(l) && AllSpaces(r) && Balanced(t) && Free(op, Mask(t))
    ensures Balanced(l + t + r) && Mask(l + t + r) == l + Mask(t) + r && Free(op, Mask(l + t + r))
  {
    hide Balanced, Free, AllSpaces;
    SpacesFlat(l);
    SpacesFlat(r);
    BalancedConcat(l, t);
    BalancedConcat(l + t, r);
    MaskConcat(l, t);
    MaskConcat(l + t, r);
    NoSeparatorIsFree(op, l);
    NoSeparatorIsFree(op, r);
    FreeConcat(op, l, Mask(t));
    FreeConcat(op, l + Mask(t), r);
  }

  /** The loops cut a joined text exactly where it was joined. */
  lemma {:induction false} PaddedSplit(kind: Kind, l: string, texts: seq<string>, r: string)
    requires texts != [] && AllSpaces(l) && AllSpaces(r)
    requires forall i :: 0 <= i < |texts| ==> Balanced(texts[i]) && Free(kind, Mask(texts[i]))
    ensures var p := Padded(l, texts, kind, r);
            AllPieces(kind, Mask(p), p) == PiecesOf(l, texts, r) && Occurrences(kind, Mask(p)) == |texts| - 1
    decreases |texts|
  {
    hide AllPieces, Occurrences, Balanced, Free, AllSpaces, Hit, Mask, First, Separator;
    var p := Padded(l, texts, kind, r);
    if |texts| == 1 {
      PadFree(kind, l, texts[0], r);
      FreeNoHit(kind, Mask(p));
      OneTurn(kind, Mask(p), p);
    } else {
      var q, rest := l + texts[0] + " ", Padded(" ", texts[1..], kind, r);
      OneSpace();
      PaddedSplit(kind, " ", texts[1..], r);
      PaddedSplit(kind, "", texts[1..], r);
      PaddedTail(kind, texts[1..], r);
      PaddedTurn(kind, l, texts[0], rest);
    }
  }

  /** One more space in front. */
  lemma PaddedTail(kind: Kind, texts: seq<string>, r: string)
    requires texts != []
    ensures Mask(Padded(" ", texts, kind, r)) == " " + Mask(Padded("", texts, kind, r))
  {
    hide Balanced, Mask, Padded;
    OneSpace();
    SpacesFlat(" ");
    SpaceInFront(kind, texts, r);
    MaskConcat(" ", Padded("", texts, kind, r));
  }

  lemma SpaceInFront(kind: Kind, texts: seq<string>, r: string)
    requires texts != []
    ensures Padded(" ", texts, kind, r) == " " + Padded("", texts, kind, r)
  {
    var t := texts[0];
    if |texts| == 1 {
      assert " " + t + r == " " + ("" + t + r);
    } else {
      var rest := Padded(" ", texts[1..], kind, r);
      FourParts(t, Separator(kind), rest);
    }
  }

  lemma FourParts(t: string, sep: string, rest: string)
    ensures (" " + t + " ") + sep + rest == " " + (("" + t + " ") + sep + rest)
  {
  }

  /** One turn of the loops: the pipe's counting loop goes on behind the space that follows. */
  lemma PaddedTurn(kind: Kind, l: string, t: string, rest: string)
    requires AllSpaces(l) && Balanced(t) && Free(kind, Mask(t)) && rest != "" && rest[0] == ' '
    ensures var p := (l + t + " ") + Separator(kind) + rest;
            && AllPieces(kind, Mask(p), p) == [l + t + " "] + AllPieces(kind, Mask(rest), rest)
            && Occurrences(kind, Mask(p)) == 1 + Occurrences(kind, if kind == Pipe then Mask(rest)[1..] else Mask(rest))
  {
    hide Balanced, Free, AllSpaces, Hit, AllPieces, Occurrences, First, Mask;
    var q, sep := l + t + " ", Separator(kind);
    var p := q + sep + rest;
    PaddedMask(kind, l, t, rest);
    FirstUnmasked(rest);
    ThreeParts(q, sep, rest);
    ThreeParts(Mask(q), sep, Mask(rest));
    FirstBehind(kind, Mask(q), Mask(rest));
    hide Separator, MatchEnd;
    PaddedCut(kind, Mask(p), p, |q|, rest);
  }

  lemma PaddedCut(kind: Kind, m: string, p: string, n: nat, rest: string)
    requires |m| == |p| && First(kind, m, 0) == n < |m| && n + |Separator(kind)| <= |m|
    requires p[n + |Separator(kind)|..] == rest && m[n + |Separator(kind)|..] == Mask(rest) && rest != ""
    ensures AllPieces(kind, m, p) == [p[..n]] + AllPieces(kind, Mask(rest), rest)
    ensures Occurrences(kind, m) == 1 + Occurrences(kind, if kind == Pipe then Mask(rest)[1..] else Mask(rest))
  {
    hide AllPieces, Occurrences, First, Mask, Hit;
    PiecesTurn(kind, m, p, n, n + |Separator(kind)|);
    CountCut(kind, m, n, rest);
  }

  lemma CountCut(kind: Kind, m: string, n: nat, rest: string)
    requires First(kind, m, 0) == n < |m| && n + |Separator(kind)| <= |m|
    requires m[n + |Separator(kind)|..] == Mask(rest) && rest != ""
    ensures Occurrences(kind, m) == 1 + Occurrences(kind, if kind == Pipe then Mask(rest)[1..] else Mask(rest))
  {
    hide Occurrences, Mask;
    HitFits(kind, m, n);
    if kind == Pipe {
      assert m[n + 2..] == m[n + 1..][1..];
    }
    hide First, Hit;
    OccurrencesTurn(kind, m, n, n + MatchEnd(kind));
  }

  lemma PaddedMask(kind: Kind, l: string, t: string, rest: string)
    requires AllSpaces(l) && Balanced(t) && Free(kind, Mask(t))
    ensures var q := l + t + " ";
            && Mask(q + Separator(kind) + rest) == Mask(q) + Separator(kind) + Mask(rest)
            && Free(kind, Mask(q)) && Mask(q) == l + Mask(t) + " "
  {
    hide Balanced, Free, AllSpaces, Mask;
    var q, sep := l + t + " ", Separator(kind);
    OneSpace();
    PadFree(kind, l, t, " ");
    FlatMask(sep);
    BalancedConcat(q, sep);
    MaskConcat(q, sep);
    MaskConcat(q + sep, rest);
  }

  lemma OneSpace()
    ensures AllSpaces("") && AllSpaces(" ")
  {
  }

  lemma FirstUnmasked(s: string)
    requires s != "" && s[0] == ' '
    ensures Mask(s)[0] == ' '
  {
    assert s[..0] == "";
  }

  // ---- printed texts

  /** A text that starts and ends with a visible character. */
  ghost predicate Solid(t: string) {
    t != "" && t[0] != ' ' && t[|t| - 1] != ' ' && '\\' !in t
  }

  lemma {:induction false} JoinFacts(texts: seq<string>, sep: string)
    requires texts != [] && Balanced(sep) && '\\' !in sep
    requires forall i :: 0 <= i < |texts| ==> Balanced(texts[i]) && Solid(texts[i])
    ensures Balanced(Join(texts, sep)) && Solid(Join(texts, sep))
    ensures |texts| > 1 ==> |texts[0]| < |Join(texts, sep)| && Join(texts, sep)[..|texts[0]|] == texts[0]
  {
    hide Balanced;
    if |texts| > 1 {
      JoinFacts(texts[1..], sep);
      BalancedConcat(texts[0], sep);
      BalancedConcat(texts[0] + sep, Join(texts[1..], sep));
    }
  }

  lemma {:induction false} JoinFree(op: Kind, texts: seq<string>, sep: string)
    requires texts != [] && Balanced(sep) && Free(op, Mask(sep))
    requires forall i :: 0 <= i < |texts| ==> Balanced(texts[i]) && Free(op, Mask(texts[i]))
    ensures Free(op, Mask(Join(texts, sep)))
  {
    hide Balanced, Free;
    if |texts| > 1 {
      JoinFree(op, texts[1..], sep);
      BalancedConcat(texts[0], sep);
      MaskConcat(texts[0], sep);
      MaskConcat(texts[0] + sep, Join(texts[1..], sep));
      FreeConcat(op, Mask(texts[0]), Mask(sep));
      FreeConcat(op, Mask(texts[0]) + Mask(sep), Mask(Join(texts[1..], sep)));
    }
  }

  lemma WordFacts(w: string)
    requires PlainWord(w)
    ensures Solid(w) && Mask(w) == w && Balanced(w) && NoSeparatorIn(w)
  {
    FlatMask(w);
  }

  lemma SpacedFacts(kind: Kind, op: Kind)
    ensures Balanced(Spaced(kind)) && Mask(Spaced(kind)) == Spaced(kind) && '\\' !in Spaced(kind)
    ensures Rank(op) < Rank(kind) ==> Free(op, Spaced(kind))
  {
    FlatMask(Spaced(kind));
  }

  lemma {:induction false} TextFacts(c: Command)
    requires Printable(c)
    ensures Balanced(Text(c)) && Solid(Text(c))
    decreases c, 1
  {
    hide Balanced, Solid, PlainWord;
    match c {
      case Exec(argv) =>
        forall i | 0 <= i < |argv| ensures Balanced(argv[i]) && Solid(argv[i]) {
          WordFacts(argv[i]);
        }
        FlatMask(" ");
        JoinFacts(argv, " ");
      case Op(kind, operands) =>
        var texts := Texts(kind, operands);
        forall i | 0 <= i < |texts| ensures Balanced(texts[i]) && Solid(texts[i]) {
          OperandFacts(kind, operands[i]);
        }
        SpacedFacts(kind, kind);
        JoinFacts(texts, Spaced(kind));
    }
  }

  lemma {:induction false} OperandFacts(kind: Kind, c: Command)
    requires Printable(c)
    ensures Balanced(Operand(kind, c)) && Solid(Operand(kind, c))
    decreases c, 2
  {
    hide Balanced;
    TextFacts(c);
    if NeedsBrackets(kind, c) {
      BracketedMask(Text(c));
    }
  }

  /** Outside its brackets a printed text contains no separator of a looser operator. */
  lemma {:induction false} TextFree(c: Command, op: Kind)
    requires Printable(c) && (c.Op? ==> Rank(op) < Rank(c.kind))
    ensures Free(op, Mask(Text(c)))
    decreases c, 1
  {
    hide Balanced, Solid, PlainWord, Free;
    match c {
      case Exec(argv) =>
        forall i | 0 <= i < |argv| ensures Balanced(argv[i]) && Free(op, Mask(argv[i])) {
          WordFacts(argv[i]);
          NoSeparatorIsFree(op, argv[i]);
        }
        FlatMask(" ");
        NoSeparatorIsFree(op, " ");
        JoinFree(op, argv, " ");
      case Op(kind, operands) =>
        var texts := Texts(kind, operands);
        forall i | 0 <= i < |texts| ensures Balanced(texts[i]) && Free(op, Mask(texts[i])) {
          OperandFacts(kind, operands[i]);
          OperandFree(kind, operands[i], op);
        }
        SpacedFacts(kind, op);
        JoinFree(op, texts, Spaced(kind));
    }
  }

  lemma {:induction false} OperandFree(kind: Kind, c: Command, op: Kind)
    requires Printable(c) && Rank(op) <= Rank(kind)
    ensures Free(op, Mask(Operand(kind, c)))
    decreases c, 2
  {
    hide Balanced, Free;
    if NeedsBrackets(kind, c) {
      TextFacts(c);
      BracketedMask(Text(c));
      NoSeparatorIsFree(op, Mask(Operand(kind, c)));
    } else {
      TextFree(c, op);
    }
  }

  // ---- brackets around a printed text

  lemma PadBalanced(l: string, t: string, r: string)
    requires AllSpaces(l) && AllSpaces(r) && Balanced(t) && '\\' !in t
    ensures Balanced(l + t + r) && '\\' !in l + t + r
  {
    hide Balanced;
    SpacesFlat(l);
    SpacesFlat(r);
    BalancedConcat(l, t);
    BalancedConcat(l + t, r);
    assert '\\' !in l + t;
  }

  /** Brackets that close before the end are not removed. */
  lemma NotAlone(l: string, t: string, r: string, k: nat)
    requires AllSpaces(l) && AllSpaces(r) && Balanced(t) && Solid(t)
    requires 0 < k < |t| && Depth(t[..k]) == 0
    ensures WithoutBrackets(l + t + r) == l + t + r
  {
    hide Balanced, Depth, Breaks;
    var s := l + t + r;
    PadBalanced(l, t, r);
    PadEnds(l, t, r, k);
    ClosedBefore(s, |l|, |l| + |t| - 1, |l| + k);
    hide AllSpaces, Solid, Lead, Trail, Matching, Inside;
    if Enclosed(s) {
      EnclosedMatches(s);
    }
  }

  lemma ClosedBefore(s: string, a: nat, b: nat, k: nat)
    requires a < k <= b < |s| && Depth(s[a..k]) == 0
    ensures !Matching(s, a, b)
  {
    hide Depth;
  }

  lemma PadEnds(l: string, t: string, r: string, k: nat)
    requires AllSpaces(l) && AllSpaces(r) && Solid(t) && k <= |t|
    ensures Lead(l + t + r) == |l| && Trail(l + t + r) == |l| + |t|
    ensures (l + t + r)[|l|..|l| + k] == t[..k]
  {
    hide Lead, Trail;
    var s := l + t + r;
    assert s[..|l|] == l && s[|l| + |t|..] == r && s[|l|..|l| + |t|] == t;
    assert s[|l|] == t[0] && s[|l| + |t| - 1] == t[|t| - 1];
    UniqueEnds(s, |l|, |l| + |t| - 1);
    assert s[|l|..|l| + k] == s[|l|..|l| + |t|][..k];
  }

  /** Brackets around a whole balanced text are removed, and the spaces around them. */
  lemma Alone(l: string, t: string, r: string)
    requires AllSpaces(l) && AllSpaces(r) && Balanced(t) && '\\' !in t
    ensures WithoutBrackets(l + ("(" + t + ")") + r) == t
  {
    hide Depth;
    var s := l + ("(" + t + ")") + r;
    assert s[..|l|] == l && s[|l| + |t| + 2..] == r && s[|l| + 1..|l| + |t| + 1] == t;
    UniqueEnds(s, |l|, |l| + |t| + 1);
    assert Inside(s) == t;
    ScanMeans(t);
  }

  // ---- the words of a printed command

  lemma WordFirst(l: string, w: string, sp: string, rest: string)
    requires AllSpaces(l) && AllSpaces(sp) && PlainWord(w)
    requires (rest != "" ==> rest[0] != ' ') && (sp == "" ==> rest == "")
    ensures Words(l + w + sp + rest) == [w] + Words(rest)
  {
    hide Words;
    var s := l + w + sp + rest;
    var a, b, c := |l|, |l| + |w|, |l| + |w| + |sp|;
    assert forall i :: 0 <= i < a ==> s[i] == l[i];
    assert forall i :: a <= i < b ==> s[i] == w[i - a];
    assert forall i :: b <= i < c ==> s[i] == sp[i - b];
    assert c < |s| ==> s[c] == rest[0];
    WordBounds(s, a, b, c);
    hide Lead, WordLength, WordStart, WordEnd, WordNext, AllSpaces, PlainWord;
    assert s[a..b] == w && s[c..] == rest;
    FirstWord(s);
  }

  lemma WordBounds(s: string, a: nat, b: nat, c: nat)
    requires a < b <= c <= |s| && (b == c ==> c == |s|) && (c < |s| ==> s[c] != ' ')
    requires forall i :: 0 <= i < a ==> s[i] == ' '
    requires forall i :: a <= i < b ==> s[i] != ' '
    requires forall i :: b <= i < c ==> s[i] == ' '
    ensures WordStart(s) == a && WordEnd(s) == b && WordNext(s) == c
  {
    LeadIs(s, a);
    WordLengthIs(s[a + 1..], b - a - 1);
    LeadIs(s[b..], c - b);
  }

  lemma LeadIs(s: string, n: nat)
    requires n <= |s| && (forall i :: 0 <= i < n ==> s[i] == ' ') && (n < |s| ==> s[n] != ' ')
    ensures Lead(s) == n
  {
    assert forall i :: 0 <= i < Lead(s) ==> s[i] == s[..Lead(s)][i];
  }

  lemma WordLengthIs(s: string, n: nat)
    requires n <= |s| && (forall i :: 0 <= i < n ==> s[i] != ' ') && (n < |s| ==> s[n] == ' ')
    ensures WordLength(s) == n
  {
  }

  lemma {:induction false} WordsJoin(argv: seq<string>, l: string, r: string)
    requires argv != [] && AllSpaces(l) && AllSpaces(r) && forall i :: 0 <= i < |argv| ==> PlainWord(argv[i])
    ensures Words(l + Join(argv, " ") + r) == argv
    decreases |argv|
  {
    hide Words, PlainWord;
    var s := l + Join(argv, " ") + r;
    if |argv| == 1 {
      WordFirst(l, argv[0], r, "");
      FirstWord("");
      assert s == l + argv[0] + r + "";
    } else {
      var rest := Join(argv[1..], " ") + r;
      assert "" + Join(argv[1..], " ") + r == rest;
      WordsJoin(argv[1..], "", r);
      JoinStarts(argv[1..]);
      WordFirst(l, argv[0], " ", rest);
      assert s == l + argv[0] + " " + rest;
    }
  }

  lemma JoinStarts(argv: seq<string>)
    requires argv != [] && PlainWord(argv[0])
    ensures Join(argv, " ") != "" && Join(argv, " ")[0] != ' '
  {
  }

  // ---- the round trip

  /** Reading a printed command, with any spaces around it, once its own brackets are gone. */
  lemma {:induction false} ReadStripped(c: Command, l: string, r: string)
    requires Printable(c) && AllSpaces(l) && AllSpaces(r)
    ensures ParseStripped(l + Text(c) + r) == Some(c)
    decreases c, 1
  {
    hide Balanced, Solid, PlainWord, Free, AllSpaces, Words, Occurrences, Mask, Split, Loosest, ParseAll;
    hide ParseText, AllPieces;
    var s := l + Text(c) + r;
    TextFacts(c);
    match c {
      case Exec(argv) =>
        NoSeparator(c, l, r, |PRIORITY|);
        LoosestIs(s, |PRIORITY|);
        WordsJoin(argv, l, r);
      case Op(kind, operands) =>
        NoSeparator(c, l, r, Rank(kind));
        ReadSplit(kind, operands, l, r);
        LoosestIs(s, Rank(kind));
        var pieces := Split(kind, Mask(s), s);
        PiecesShorter(kind, s);
        forall i | 0 <= i < |pieces| ensures ParseText(pieces[i]) == Some(operands[i]) {
          OneSpace();
          ReadOperand(kind, operands[i], if i == 0 then l else " ", if i == |operands| - 1 then r else " ");
        }
        ParseAllAt(pieces, |s|);
        assert ParseAll(pieces, |s|).value == operands;
    }
  }

  lemma NoSeparator(c: Command, l: string, r: string, n: nat)
    requires Printable(c) && AllSpaces(l) && AllSpaces(r) && n <= |PRIORITY|
    requires c.Op? ==> n <= Rank(c.kind)
    ensures forall j :: 0 <= j < n ==> Occurrences(PRIORITY[j], Mask(l + Text(c) + r)) == 0
  {
    hide Balanced, Free, AllSpaces, Occurrences, Mask;
    forall j | 0 <= j < n ensures Occurrences(PRIORITY[j], Mask(l + Text(c) + r)) == 0 {
      var op := PRIORITY[j];
      assert Rank(op) == j;
      TextFacts(c);
      TextFree(c, op);
      PadFree(op, l, Text(c), r);
      FreeNoHit(op, Mask(l + Text(c) + r));
    }
  }

  lemma ReadSplit(kind: Kind, operands: seq<Command>, l: string, r: string)
    requires Printable(Op(kind, operands)) && AllSpaces(l) && AllSpaces(r)
    ensures var s := l + Text(Op(kind, operands)) + r;
            && Split(kind, Mask(s), s) == PiecesOf(l, Texts(kind, operands), r)
            && Occurrences(kind, Mask(s)) == |operands| - 1
  {
    hide Balanced, Free, AllSpaces, Occurrences, Mask, AllPieces;
    var texts := Texts(kind, operands);
    forall i | 0 <= i < |texts| ensures Balanced(texts[i]) && Free(kind, Mask(texts[i])) {
      OperandFacts(kind, operands[i]);
      OperandFree(kind, operands[i], kind);
    }
    PaddedSplit(kind, l, texts, r);
    PaddedIsJoin(l, texts, kind, r);
  }

  lemma {:induction false} ReadOperand(kind: Kind, c: Command, l: string, r: string)
    requires Printable(c) && AllSpaces(l) && AllSpaces(r)
    ensures ParseText(l + Operand(kind, c) + r) == Some(c)
    decreases c, 3
  {
    if NeedsBrackets(kind, c) {
      TextFacts(c);
      Alone(l, Text(c), r);
      ReadStripped(c, "", "");
      assert "" + Text(c) + "" == Text(c);
    } else {
      ReadPadded(c, l, r);
    }
  }

  lemma {:induction false} ReadPadded(c: Command, l: string, r: string)
    requires Printable(c) && AllSpaces(l) && AllSpaces(r)
    ensures ParseText(l + Text(c) + r) == Some(c)
    decreases c, 2
  {
    ReadStripped(c, l, r);
    NotStripped(c, l, r);
  }

  lemma NotStripped(c: Command, l: string, r: string)
    requires Printable(c) && AllSpaces(l) && AllSpaces(r)
    ensures WithoutBrackets(l + Text(c) + r) == l + Text(c) + r
  {
    TextFacts(c);
    match c {
      case Exec(argv) =>
        NoBracketsInWords(argv);
        UniqueEnds(l + Text(c) + r, |l|, |l| + |Text(c)| - 1);
      case Op(kind, operands) =>
        var texts := Texts(kind, operands);
        forall i | 0 <= i < |texts| ensures Balanced(texts[i]) && Solid(texts[i]) {
          OperandFacts(kind, operands[i]);
        }
        SpacedFacts(kind, kind);
        JoinFacts(texts, Spaced(kind));
        NotAlone(l, Text(c), r, |texts[0]|);
    }
  }

  lemma {:induction false} NoBracketsInWords(argv: seq<string>)
    requires argv != [] && forall i :: 0 <= i < |argv| ==> PlainWord(argv[i])
    ensures '(' !in Join(argv, " ")
  {
    if |argv| > 1 {
      NoBracketsInWords(argv[1..]);
    }
  }

  lemma {:induction false} JoinPlain(texts: seq<string>, sep: string)
    requires texts != [] && Plain(sep) && forall i :: 0 <= i < |texts| ==> Plain(texts[i])
    ensures Plain(Join(texts, sep))
  {
    if |texts| > 1 {
      JoinPlain(texts[1..], sep);
    }
  }

  lemma {:induction false} TextPlain(c: Command)
    requires Printable(c)
    ensures Plain(Text(c))
  {
    match c {
      case Exec(argv) =>
        JoinPlain(argv, " ");
      case Op(kind, operands) =>
        forall i | 0 <= i < |operands| ensures Plain(Operand(kind, operands[i])) {
          TextPlain(operands[i]);
        }
        JoinPlain(Texts(kind, operands), Spaced(kind));
    }
  }

  /** Round trip: the parser reads back what the printer writes. */
  lemma RoundTrip(c: Command)
    requires Printable(c)
    ensures Plain(Text(c)) && ParseText(Text(c)) == Some(c)
  {
    hide Printable, Plain, ParseText;
    TextPlain(c);
    ReadPadded(c, "", "");
    assert "" + Text(c) + "" == Text(c);
  }
}
