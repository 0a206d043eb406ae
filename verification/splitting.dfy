/** Masking bracketed text and cutting a text at the separators of an operator
    (src/common/my_regex.c and src/parse/parse.c). */
module Splitting {
  import opened Nodes

  // ---- bracket depth

  function Turn(c: char): int {
    if c == '(' then 1 else if c == ')' then -1 else 0
  }

  /** Opening minus closing brackets. */
  function Depth(s: string): int {
    if s == "" then 0 else Depth(s[..|s| - 1]) + Turn(s[|s| - 1])
  }

  ghost predicate Balanced(s: string) {
    Depth(s) == 0 && forall i :: 0 <= i <= |s| ==> Depth(s[..i]) >= 0
  }

  lemma EmptyDepth()
    ensures Depth("") == 0
  {
  }

  lemma DepthSnoc(s: string, i: nat)
    requires i < |s|
    ensures Depth(s[..i + 1]) == Depth(s[..i]) + Turn(s[i])
  {
    assert s[..i + 1][..i] == s[..i];
  }

  lemma {:induction false} DepthConcat(a: string, b: string)
    ensures Depth(a + b) == Depth(a) + Depth(b)
  {
    if b == "" {
      assert a + b == a;
    } else {
      var n := |b| - 1;
      DepthConcat(a, b[..n]);
      assert (a + b)[..|a + b| - 1] == a + b[..n];
    }
  }

  lemma DepthFrom(s: string, i: nat, k: nat)
    requires i + k <= |s|
    ensures Depth(s[..i + k]) == Depth(s[..i]) + Depth(s[i..][..k])
  {
    hide Depth;
    assert s[..i + k] == s[..i] + s[i..][..k];
    DepthConcat(s[..i], s[i..][..k]);
  }

  /** Two balanced texts side by side, or a text cut at depth 0. */
  lemma BalancedConcat(a: string, b: string)
    requires Balanced(a)
    ensures Balanced(b) <==> Balanced(a + b)
  {
    DepthConcat(a, b);
    forall i | 0 <= i <= |a| ensures Depth((a + b)[..i]) >= 0 {
      assert (a + b)[..i] == a[..i];
    }
    forall i: nat | i <= |b| ensures Depth((a + b)[..|a| + i]) == Depth(b[..i]) {
      assert (a + b)[..|a| + i] == a + b[..i];
      DepthConcat(a, b[..i]);
    }
    if Balanced(b) {
      forall i | 0 <= i <= |a + b| ensures Depth((a + b)[..i]) >= 0 {
        if i > |a| {
          assert Depth((a + b)[..|a| + (i - |a|)]) == Depth(b[..i - |a|]);
        }
      }
    }
    if Balanced(a + b) {
      forall i | 0 <= i <= |b| ensures Depth(b[..i]) >= 0 {
        assert Depth((a + b)[..|a| + i]) == Depth(b[..i]);
      }
    }
  }

  // ---- masking

  /** Character i is inside brackets, or is a bracket. */
  predicate Bracketed(s: string, i: nat)
    requires i < |s|
  {
    Depth(s[..i]) + (if s[i] == '(' then 1 else 0) > 0
  }

  /** The text with '#' for everything inside brackets. */
  function Mask(s: string): (m: string)
    ensures |m| == |s|
    ensures forall i :: 0 <= i < |s| ==> m[i] == if Bracketed(s, i) then '#' else s[i]
  {
    seq(|s|, i requires 0 <= i < |s| => if Bracketed(s, i) then '#' else s[i])
  }

  /** obfuscate_brackets_in_string: overwrites a copy, character by character. */
  method ObfuscateBracketsInString(str: string) returns (obs: array<char>)
    ensures obs[..] == Mask(str)
  {
    hide Mask, Depth;
    obs := new char[|str|](i requires 0 <= i < |str| => str[i]);
    EmptyDepth();
    var parenthesis := 0;
    assert str[..0] == "";
    for i := 0 to |str|
      invariant parenthesis == Depth(str[..i])
      invariant forall j :: 0 <= j < i ==> obs[j] == Mask(str)[j]
    {
      DepthSnoc(str, i);
      if str[i] == '(' {
        parenthesis := parenthesis + 1;
      }
      obs[i] := if parenthesis > 0 then '#' else str[i];
      if str[i] == ')' {
        parenthesis := parenthesis - 1;
      }
    }
  }

  /** m hides some characters of s. */
  ghost predicate Masks(m: string, s: string) {
    |m| == |s| && forall i :: 0 <= i < |m| ==> m[i] == '#' || m[i] == s[i]
  }

  // ---- the separators

  /** An operator's separator; (&&), (\|\|) and (;) match it literally. */
  function Separator(op: Kind): (sep: string)
    ensures |sep| > 0
  {
    match op
    case And => "&&"
    case Or => "||"
    case Pipe => "|"
    case Semicolon => ";"
  }

  /** The separator's regular expression matches with its group at j. The expression of the pipe,
      [^|](\|)[^|], needs a neighbour that is no bar on both sides. */
  predicate Hit(op: Kind, m: string, j: nat) {
    match op
    case And => j + 1 < |m| && m[j] == '&' && m[j + 1] == '&'
    case Or => j + 1 < |m| && m[j] == '|' && m[j + 1] == '|'
    case Pipe => 0 < j && j + 1 < |m| && m[j - 1] != '|' && m[j] == '|' && m[j + 1] != '|'
    case Semicolon => j < |m| && m[j] == ';'
  }

  /** Where the whole match ends, seen from its group: the pipe's match takes one character more. */
  function MatchEnd(op: Kind): (n: nat)
    ensures n > 0
  {
    if op == Pipe then 2 else |Separator(op)|
  }

  /** regexec: the leftmost match from j on, |m| if there is none. */
  function First(op: Kind, m: string, j: nat): (r: nat)
    requires j <= |m|
    ensures j <= r <= |m|
    ensures r < |m| ==> Hit(op, m, r)
    ensures forall k :: j <= k < r ==> !Hit(op, m, k)
    decreases |m| - j
  {
    if j == |m| || Hit(op, m, j) then j else First(op, m, j + 1)
  }

  lemma FirstIs(op: Kind, m: string, j: nat)
    requires j <= |m| && (j < |m| ==> Hit(op, m, j)) && forall k :: 0 <= k < j ==> !Hit(op, m, k)
    ensures First(op, m, 0) == j
  {
  }

  /** How often the separator's expression matches, each search starting behind the last match. */
  function Occurrences(op: Kind, m: string): nat
    decreases |m|
  {
    var j := First(op, m, 0);
    if j == |m| then 0 else 1 + Occurrences(op, m[j + MatchEnd(op)..])
  }

  method CountOccurrencesOfRegex(m: string, op: Kind) returns (count: nat)
    ensures count == Occurrences(op, m)
  {
    count := 0;
    var str := m;
    while str != ""
      invariant count + Occurrences(op, str) == Occurrences(op, m)
      decreases |str|
    {
      var so := First(op, str, 0);
      if so == |str| {
        break;
      }
      count := count + 1;
      str := str[so + MatchEnd(op)..];
    }
  }

  /** All pieces between separators, each search starting behind the last separator. */
  function AllPieces(op: Kind, m: string, s: string): (pieces: seq<string>)
    requires |m| == |s|
    ensures |pieces| > 0
    decreases |m|
  {
    var j := First(op, m, 0);
    if j == |m| then [s]
    else
      var k := j + |Separator(op)|;
      [s[..j]] + AllPieces(op, m[k..], s[k..])
  }

  lemma HitFits(op: Kind, m: string, j: nat)
    requires Hit(op, m, j)
    ensures j + |Separator(op)| <= j + MatchEnd(op) <= |m|
  {
  }

  /** One turn of each loop. */
  lemma OneTurn(op: Kind, m: string, s: string)
    requires |m| == |s|
    ensures First(op, m, 0) == |m| ==> AllPieces(op, m, s) == [s] && Occurrences(op, m) == 0
    ensures First(op, m, 0) < |m| ==>
              First(op, m, 0) + |Separator(op)| <= First(op, m, 0) + MatchEnd(op) <= |m|
    ensures First(op, m, 0) < |m| ==>
              var j := First(op, m, 0);
              AllPieces(op, m, s) == [s[..j]] + AllPieces(op, m[j + |Separator(op)|..], s[j + |Separator(op)|..])
    ensures First(op, m, 0) < |m| ==> Occurrences(op, m) == 1 + Occurrences(op, m[First(op, m, 0) + MatchEnd(op)..])
  {
    hide Separator, MatchEnd, First, AllPieces, Occurrences, Hit;
    var j := First(op, m, 0);
    if j < |m| {
      HitFits(op, m, j);
      PiecesTurn(op, m, s, j, j + |Separator(op)|);
      OccurrencesTurn(op, m, j, j + MatchEnd(op));
    } else {
      PiecesEnd(op, m, s);
    }
  }

  lemma PiecesEnd(op: Kind, m: string, s: string)
    requires |m| == |s| && First(op, m, 0) == |m|
    ensures AllPieces(op, m, s) == [s] && Occurrences(op, m) == 0
  {
  }

  lemma PiecesTurn(op: Kind, m: string, s: string, j: nat, k: nat)
    requires |m| == |s| && First(op, m, 0) == j < |m| && k == j + |Separator(op)| <= |m|
    ensures AllPieces(op, m, s) == [s[..j]] + AllPieces(op, m[k..], s[k..])
  {
    hide Separator, First, Hit;
  }

  lemma OccurrencesTurn(op: Kind, m: string, j: nat, k: nat)
    requires First(op, m, 0) == j < |m| && k == j + MatchEnd(op) <= |m|
    ensures Occurrences(op, m) == 1 + Occurrences(op, m[k..])
  {
    hide MatchEnd, First, Hit;
  }

  /** What the splitting loop produces: as many pieces as were counted, and one. */
  function Split(op: Kind, m: string, s: string): (pieces: seq<string>)
    requires |m| == |s|
    ensures |pieces| == Occurrences(op, m) + 1
  {
    EnoughPieces(op, m, s);
    AllPieces(op, m, s)[..Occurrences(op, m) + 1]
  }

  /** split_obfuscated_string. No piece but the last can be without a match. */
  method SplitObfuscatedString(m: string, op: Kind, s: string) returns (subStrings: array<string>)
    requires |m| == |s|
    ensures subStrings[..] == Split(op, m, s)
  {
    hide AllPieces, Occurrences, Hit;
    var operatorsCount := CountOccurrencesOfRegex(m, op);
    var pieces := operatorsCount + 1;
    subStrings := new string[pieces](_ => "");
    var obsStr, str := m, s;
    EnoughPieces(op, m, s);
    ghost var all := AllPieces(op, m, s);
    for i := 0 to pieces
      invariant |obsStr| == |str|
      invariant i < pieces ==> AllPieces(op, obsStr, str) == all[i..]
      invariant subStrings[..i] == all[..i]
    {
      OneTurn(op, obsStr, str);
      var so := First(op, obsStr, 0);
      if so == |obsStr| {
        subStrings[i] := str;
      } else {
        subStrings[i] := str[..so];
        obsStr, str := obsStr[so + |Separator(op)|..], str[so + |Separator(op)|..];
      }
      assert subStrings[i] == all[i..][0];
      assert all[i..][1..] == all[i + 1..];
    }
  }

  // ---- the two loops agree

  /** Dropping the first character loses the match whose group is the second character, if any. */
  lemma DropOne(m: string, s: string)
    requires |m| == |s| > 0
    ensures |AllPieces(Pipe, m, s)| == |AllPieces(Pipe, m[1..], s[1..])| + if Hit(Pipe, m, 1) then 1 else 0
  {
    var j, j' := First(Pipe, m, 0), First(Pipe, m[1..], 0);
    forall k: nat | k > 0 ensures Hit(Pipe, m[1..], k) <==> Hit(Pipe, m, k + 1) {
    }
    if Hit(Pipe, m, 1) {
      FirstIs(Pipe, m, 1);
      if |m| > 2 {
        assert m[1..][1..] == m[2..] && s[1..][1..] == s[2..];
        assert !Hit(Pipe, m, 2);
        SameRest(m[1..], s[1..]);
      }
    } else if j == |m| {
      FirstIs(Pipe, m[1..], |m| - 1);
    } else {
      FirstIs(Pipe, m[1..], j - 1);
      assert m[1..][j..] == m[j + 1..] && s[1..][j..] == s[j + 1..];
    }
  }

  lemma SameRest(m: string, s: string)
    requires |m| == |s| > 0 && !Hit(Pipe, m, 1)
    ensures |AllPieces(Pipe, m, s)| == |AllPieces(Pipe, m[1..], s[1..])|
  {
    var j := First(Pipe, m, 0);
    forall k: nat | k > 0 ensures Hit(Pipe, m[1..], k) <==> Hit(Pipe, m, k + 1) {
    }
    if j == |m| {
      FirstIs(Pipe, m[1..], |m| - 1);
    } else {
      FirstIs(Pipe, m[1..], j - 1);
      assert m[1..][j..] == m[j + 1..] && s[1..][j..] == s[j + 1..];
    }
  }

  /** Two separate pipe symbols with a single character between them. */
  ghost predicate Crowded(m: string) {
    exists j: nat :: Hit(Pipe, m, j) && Hit(Pipe, m, j + 2)
  }

  /** The counting loop never counts more separators than the cutting loop finds. It counts all of
      them, except that of two pipe symbols with one character between them it misses the second. */
  lemma {:induction false} EnoughPieces(op: Kind, m: string, s: string)
    requires |m| == |s|
    ensures Occurrences(op, m) + 1 <= |AllPieces(op, m, s)|
    ensures Occurrences(op, m) + 1 == |AllPieces(op, m, s)| <==> !(op == Pipe && Crowded(m))
    decreases |m|
  {
    hide AllPieces, Occurrences, Hit, Crowded;
    OneTurn(op, m, s);
    var j := First(op, m, 0);
    if j < |m| {
      var k := j + |Separator(op)|;
      if op != Pipe {
        EnoughPieces(op, m[k..], s[k..]);
      } else {
        DropOne(m[k..], s[k..]);
        assert m[k..][1..] == m[k + 1..] && s[k..][1..] == s[k + 1..];
        EnoughPieces(op, m[k + 1..], s[k + 1..]);
        CrowdedRest(m, j);
      }
    } else if op == Pipe {
      NotCrowded(m);
    }
  }

  lemma NotCrowded(m: string)
    requires First(Pipe, m, 0) == |m|
    ensures !Crowded(m)
  {
    forall j: nat ensures !Hit(Pipe, m, j) {
      if j < |m| {
        assert !Hit(Pipe, m, j);
      }
    }
  }

  lemma CrowdedRest(m: string, j: nat)
    requires j < |m| && j == First(Pipe, m, 0)
    ensures Hit(Pipe, m[j + 1..], 1) <==> Hit(Pipe, m, j + 2)
    ensures Crowded(m) <==> Hit(Pipe, m, j + 2) || Crowded(m[j + 2..])
  {
    var rest := m[j + 2..];
    forall i: nat | i > 0 ensures Hit(Pipe, rest, i) <==> Hit(Pipe, m, j + 2 + i) {
    }
    if Crowded(m) {
      var i: nat :| Hit(Pipe, m, i) && Hit(Pipe, m, i + 2);
      if i > j + 2 {
        assert Hit(Pipe, rest, i - j - 2) && Hit(Pipe, rest, i - j - 2 + 2);
      }
    }
    if Crowded(m[j + 2..]) {
      var i: nat :| Hit(Pipe, rest, i) && Hit(Pipe, rest, i + 2);
      assert Hit(Pipe, m, j + 2 + i) && Hit(Pipe, m, j + 2 + i + 2);
    }
  }

  // ---- reassembly

  function Join(pieces: seq<string>, sep: string): string
    requires |pieces| > 0
  {
    if |pieces| == 1 then pieces[0] else pieces[0] + sep + Join(pieces[1..], sep)
  }

  lemma HitIsSeparator(op: Kind, m: string, s: string, j: nat)
    requires Masks(m, s) && Hit(op, m, j)
    ensures s == s[..j] + Separator(op) + s[j + |Separator(op)|..]
  {
  }

  lemma {:induction false} AllPiecesJoin(op: Kind, m: string, s: string)
    requires Masks(m, s)
    ensures Join(AllPieces(op, m, s), Separator(op)) == s
    decreases |m|
  {
    hide AllPieces, Hit;
    OneTurn(op, m, s);
    var j := First(op, m, 0);
    if j < |m| {
      var k := j + |Separator(op)|;
      AllPiecesJoin(op, m[k..], s[k..]);
      HitIsSeparator(op, m, s, j);
      var rest := AllPieces(op, m[k..], s[k..]);
      assert ([s[..j]] + rest)[1..] == rest;
      assert s[..j] + Separator(op) + s[k..] == s;
    }
  }

  lemma {:induction false} JoinLonger(pieces: seq<string>, k: nat, sep: string)
    requires 0 < k < |pieces| && |sep| > 0
    ensures |Join(pieces[..k], sep)| < |Join(pieces, sep)|
  {
    if k > 1 {
      JoinLonger(pieces[1..], k - 1, sep);
      assert pieces[..k][1..] == pieces[1..][..k - 1];
    }
  }

  /** Cutting and joining gives back the text, except when two pipe symbols outside brackets have
      only one character between them. */
  lemma SplitReassembles(op: Kind, s: string)
    ensures Join(Split(op, Mask(s), s), Separator(op)) == s <==> !(op == Pipe && Crowded(Mask(s)))
  {
    hide AllPieces, Occurrences, Mask, Crowded, Join;
    var m := Mask(s);
    EnoughPieces(op, m, s);
    AllPiecesJoin(op, m, s);
    var all, k := AllPieces(op, m, s), Occurrences(op, m) + 1;
    if k < |all| {
      JoinLonger(all, k, Separator(op));
    } else {
      assert all[..k] == all;
    }
  }

  /** The third command of this pipe is lost. */
  lemma LostPiece()
    ensures Mask("a|b|c") == "a|b|c" && Crowded(Mask("a|b|c"))
    ensures Split(Pipe, Mask("a|b|c"), "a|b|c") == ["a", "b"]
  {
    var s := "a|b|c";
    forall i | 0 <= i < |s| ensures !Bracketed(s, i) {
      NoBrackets(s[..i]);
    }
    assert Mask(s) == s;
    assert Hit(Pipe, s, 1) && Hit(Pipe, s, 1 + 2);
    hide Occurrences, AllPieces, Mask;
    LostTurns();
  }

  lemma LostTurns()
    ensures Occurrences(Pipe, "a|b|c") == 1
    ensures |AllPieces(Pipe, "a|b|c", "a|b|c")| >= 2 && AllPieces(Pipe, "a|b|c", "a|b|c")[..2] == ["a", "b"]
  {
    hide Occurrences, AllPieces;
    var s := "a|b|c";
    FirstIs(Pipe, s, 1);
    FirstIs(Pipe, "|c", 2);
    FirstIs(Pipe, "b|c", 1);
    hide First, Hit;
    OneTurn(Pipe, s, s);
    OneTurn(Pipe, "|c", "|c");
    OneTurn(Pipe, "b|c", "b|c");
    assert s[3..] == "|c" && s[2..] == "b|c" && s[..1] == "a" && "b|c"[..1] == "b";
  }

  lemma {:induction false} NoBrackets(s: string)
    requires '(' !in s && ')' !in s
    ensures Depth(s) == 0
  {
    if s != "" {
      NoBrackets(s[..|s| - 1]);
    }
  }

  // ---- pieces of a balanced text

  /** Cutting a balanced text at an unmasked character cuts it at depth 0. */
  lemma CutBalanced(s: string, j: nat, k: nat)
    requires Balanced(s) && j < k <= |s|
    requires forall i :: j <= i < k ==> Mask(s)[i] != '#' && s[i] != '(' && s[i] != ')'
    ensures Depth(s[..j]) == 0 && Depth(s[..k]) == 0
    ensures Balanced(s[..j]) && Balanced(s[k..])
    ensures Mask(s)[k..] == Mask(s[k..])
  {
    assert Depth(s[..j]) == 0 by {
      assert !Bracketed(s, j);
    }
    FlatTo(s, j, k);
    hide Mask, Depth;
    hide Balanced;
    PrefixBalanced(s, j);
    SuffixBalanced(s, k);
    MaskTail(s, k);
  }

  lemma SuffixBalanced(s: string, k: nat)
    requires Balanced(s) && k <= |s| && Depth(s[..k]) == 0
    ensures Balanced(s[k..])
  {
    hide Balanced, Depth;
    PrefixBalanced(s, k);
    BalancedConcat(s[..k], s[k..]);
    assert s == s[..k] + s[k..];
  }

  lemma PrefixBalanced(s: string, j: nat)
    requires Balanced(s) && j <= |s| && Depth(s[..j]) == 0
    ensures Balanced(s[..j])
  {
    hide Depth;
    forall i | 0 <= i <= j ensures Depth(s[..j][..i]) >= 0 {
      assert s[..j][..i] == s[..i];
    }
  }

  lemma MaskTail(s: string, k: nat)
    requires k <= |s| && Depth(s[..k]) == 0
    ensures Mask(s)[k..] == Mask(s[k..])
  {
    hide Mask, Depth;
    forall i: nat | i < |s| - k ensures Mask(s)[k + i] == Mask(s[k..])[i] {
      DepthFrom(s, k, i);
      assert s[k..][i] == s[k + i];
    }
  }

  lemma {:induction false} FlatTo(s: string, j: nat, i: nat)
    requires j <= i <= |s| && Depth(s[..j]) == 0 && forall k :: j <= k < i ==> s[k] != '(' && s[k] != ')'
    ensures Depth(s[..i]) == 0
    decreases i
  {
    if j < i {
      FlatTo(s, j, i - 1);
      DepthSnoc(s, i - 1);
    }
  }

  lemma HitBalanced(op: Kind, s: string, j: nat)
    requires Balanced(s) && Hit(op, Mask(s), j)
    ensures Depth(s[..j]) == 0
    ensures Balanced(s[..j]) && Balanced(s[j + |Separator(op)|..])
    ensures Mask(s)[j + |Separator(op)|..] == Mask(s[j + |Separator(op)|..])
  {
    hide Balanced, Bracketed, Depth;
    var k := j + |Separator(op)|;
    forall i | j <= i < k ensures Mask(s)[i] != '#' && s[i] != '(' && s[i] != ')' {
      assert Mask(s)[i] == Separator(op)[i - j];
    }
    CutBalanced(s, j, k);
  }

  /** All pieces of a balanced text are balanced, and shorter than the text if there are several. */
  lemma {:induction false} AllPiecesBalanced(op: Kind, s: string)
    requires Balanced(s)
    ensures forall i :: 0 <= i < |AllPieces(op, Mask(s), s)| ==> Balanced(AllPieces(op, Mask(s), s)[i])
    decreases |s|
  {
    hide AllPieces, Hit, Balanced;
    var m := Mask(s);
    OneTurn(op, m, s);
    var j := First(op, m, 0);
    if j < |m| {
      HitBalanced(op, s, j);
      AllPiecesBalanced(op, s[j + |Separator(op)|..]);
    }
  }

  lemma {:induction false} AllPiecesShorter(op: Kind, m: string, s: string)
    requires |m| == |s|
    ensures forall i :: 0 <= i < |AllPieces(op, m, s)| ==> |AllPieces(op, m, s)[i]| <= |s|
    ensures |AllPieces(op, m, s)| > 1 ==> forall i :: 0 <= i < |AllPieces(op, m, s)| ==> |AllPieces(op, m, s)[i]| < |s|
    decreases |m|
  {
    var j := First(op, m, 0);
    if j < |m| {
      var k := j + |Separator(op)|;
      AllPiecesShorter(op, m[k..], s[k..]);
    }
  }
}
