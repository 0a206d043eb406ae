/** remove_brackets_if_alone (src/parse/parse.c). */
module Brackets {
  import opened Splitting

  ghost predicate AllSpaces(s: string) {
    forall i :: 0 <= i < |s| ==> s[i] == ' '
  }

  /** Number of spaces a text starts with. */
  function Lead(s: string): (n: nat)
    ensures n <= |s| && AllSpaces(s[..n]) && (n < |s| ==> s[n] != ' ')
  {
    if s == "" || s[0] != ' ' then 0
    else
      var n := Lead(s[1..]);
      assert forall i :: 0 < i < 1 + n ==> s[i] == s[1..][i - 1];
      1 + n
  }

  /** Where the trailing spaces of a text begin. */
  function Trail(s: string): (n: nat)
    ensures n <= |s| && AllSpaces(s[n..]) && (n > 0 ==> s[n - 1] != ' ')
  {
    if s == "" || s[|s| - 1] != ' ' then |s|
    else
      var n := Trail(s[..|s| - 1]);
      assert forall i :: n <= i < |s| - 1 ==> s[i] == s[..|s| - 1][n..][i - n];
      n
  }

  /** ^[ ]*\((.*)\)[ ]*$ matches. */
  predicate Enclosed(s: string) {
    Lead(s) + 1 < Trail(s) && s[Lead(s)] == '(' && s[Trail(s) - 1] == ')'
  }

  function Inside(s: string): string
    requires Enclosed(s)
  {
    s[Lead(s) + 1..Trail(s) - 1]
  }

  /** From position i on, with `surplus` more opening than closing brackets so far, more brackets get
      closed than opened; a backslash hides the character behind it. */
  predicate Breaks(s: string, i: nat, surplus: int)
    decreases |s| - i
  {
    if i >= |s| then false
    else if s[i] == '\\' then Breaks(s, i + 2, surplus)
    else if s[i] == '(' then Breaks(s, i + 1, surplus + 1)
    else if s[i] == ')' then surplus < 1 || Breaks(s, i + 1, surplus - 1)
    else Breaks(s, i + 1, surplus)
  }

  predicate Strips(s: string) {
    Enclosed(s) && !Breaks(Inside(s), 0, 0)
  }

  function WithoutBrackets(s: string): (r: string)
    ensures |r| <= |s|
  {
    if Strips(s) then Inside(s) else s
  }

  method RemoveBracketsIfAlone(str: string) returns (r: string)
    ensures r == WithoutBrackets(str)
  {
    if Enclosed(str) {
      var withoutBrackets := Inside(str);
      var open, close, i, broken := 0, 0, 0, false;
      while i < |withoutBrackets| && !broken
        invariant open >= 0 && close >= 0 && i >= 0
        invariant if broken then Breaks(withoutBrackets, 0, 0)
                  else Breaks(withoutBrackets, 0, 0) == Breaks(withoutBrackets, i, open - close)
        decreases |withoutBrackets| - i, !broken
      {
        if withoutBrackets[i] == '\\' {
          i := i + 1;
        } else if withoutBrackets[i] == '(' {
          open := open + 1;
        } else if withoutBrackets[i] == ')' {
          close := close + 1;
          if close > open {
            broken := true;
          }
        }
        i := i + 1;
      }
      if !broken {
        return withoutBrackets;
      }
    }
    return str;
  }

  /** The bracket that opens at a is closed at b. */
  ghost predicate Matching(s: string, a: nat, b: nat) {
    && a < b < |s| && s[a] == '(' && s[b] == ')'
    && Depth(s[a..b + 1]) == 0
    && forall k :: a < k <= b ==> Depth(s[a..k]) > 0
  }

  lemma {:induction false} BreaksMeans(s: string, i: nat)
    requires '\\' !in s && i <= |s|
    ensures Breaks(s, i, Depth(s[..i])) <==> exists k :: i < k <= |s| && s[k - 1] == ')' && Depth(s[..k]) < 0
    decreases |s| - i
  {
    if i < |s| {
      DepthSnoc(s, i);
      BreaksMeans(s, i + 1);
    }
  }

  lemma UniqueEnds(s: string, a: nat, b: nat)
    requires a <= b < |s| && s[a] != ' ' && s[b] != ' ' && AllSpaces(s[..a]) && AllSpaces(s[b + 1..])
    ensures Lead(s) == a && Trail(s) == b + 1
  {
    assert forall i :: 0 <= i < Lead(s) ==> s[i] == s[..Lead(s)][i];
    assert forall i :: 0 <= i < a ==> s[i] == s[..a][i];
    assert forall i :: Trail(s) <= i < |s| ==> s[i] == s[Trail(s)..][i - Trail(s)];
    assert forall i :: b < i < |s| ==> s[i] == s[b + 1..][i - b - 1];
  }

  /** ^[ ]*\((.*)\)[ ]*$ matches with the group between a and b. */
  ghost predicate EnclosedAt(s: string, a: nat, b: nat) {
    a < b < |s| && s[a] == '(' && s[b] == ')' && AllSpaces(s[..a]) && AllSpaces(s[b + 1..])
  }

  /** The expression has at most one way to match: Enclosed and Inside describe it. */
  lemma OnlyMatch(s: string)
    ensures Enclosed(s) <==> exists a: nat, b: nat :: EnclosedAt(s, a, b)
    ensures forall a: nat, b: nat :: EnclosedAt(s, a, b) ==> Enclosed(s) && Inside(s) == s[a + 1..b]
  {
    forall a: nat, b: nat | EnclosedAt(s, a, b) ensures Enclosed(s) && Inside(s) == s[a + 1..b] {
      UniqueEnds(s, a, b);
    }
    if Enclosed(s) {
      assert EnclosedAt(s, Lead(s), Trail(s) - 1);
    }
  }

  lemma {:induction false} SpacesDepth(s: string)
    requires AllSpaces(s)
    ensures Depth(s) == 0
  {
    if s != "" {
      SpacesDepth(s[..|s| - 1]);
    }
  }

  /** Depths inside the enclosing brackets, seen from outside them. */
  lemma InnerDepth(s: string, k: nat)
    requires Enclosed(s) && k <= |Inside(s)|
    ensures Depth(s[Lead(s)..Lead(s) + 1 + k]) == 1 + Depth(Inside(s)[..k])
  {
    var a := Lead(s);
    hide Lead, Trail;
    BehindBracket(s, a, a + 1 + k);
    assert Inside(s)[..k] == s[a + 1..a + 1 + k];
  }

  /** A text that begins with an opening bracket is one deeper than what follows it. */
  lemma BehindBracket(s: string, a: nat, b: nat)
    requires a < b <= |s| && s[a] == '('
    ensures Depth(s[a..b]) == 1 + Depth(s[a + 1..b])
  {
    assert "("[..0] == "";
    assert Depth("(") == 1;
    hide Depth;
    assert s[a..b] == "(" + s[a + 1..b];
    DepthConcat("(", s[a + 1..b]);
  }

  /** Without the spaces around it the text is still balanced. */
  lemma TrimmedDepth(s: string)
    requires Balanced(s) && Enclosed(s)
    ensures Depth(s[Lead(s)..Trail(s)]) == 0
  {
    var a, b := Lead(s), Trail(s);
    SpacesDepth(s[..a]);
    SpacesDepth(s[b..]);
    DepthConcat(s[..a], s[a..b]);
    DepthConcat(s[..b], s[b..]);
    assert s == s[..b] + s[b..] && s[..b] == s[..a] + s[a..b];
  }

  /** In an enclosed balanced text, the brackets around it match exactly if nothing in between
      closes more than it opens. */
  lemma EnclosedMatches(s: string)
    requires Balanced(s) && '\\' !in s && Enclosed(s)
    ensures Strips(s) <==> Matching(s, Lead(s), Trail(s) - 1)
  {
    hide Depth, Balanced;
    var a, b := Lead(s), Trail(s) - 1;
    var inner := Inside(s);
    ScanMeans(inner);
    TrimmedDepth(s);
    if Matching(s, a, b) {
      forall k: nat | k <= |inner| ensures Depth(inner[..k]) >= 0 {
        InnerDepth(s, k);
        assert Depth(s[a..a + 1 + k]) > 0;
      }
    }
    if Strips(s) {
      forall k | a < k <= b ensures Depth(s[a..k]) > 0 {
        InnerDepth(s, k - a - 1);
      }
    }
  }

  lemma ScanMeans(s: string)
    requires '\\' !in s
    ensures Breaks(s, 0, 0) <==> exists k: nat :: k <= |s| && Depth(s[..k]) < 0
  {
    assert s[..0] == "";
    BreaksMeans(s, 0);
    if !Breaks(s, 0, 0) {
      forall k: nat | k <= |s| ensures Depth(s[..k]) >= 0 {
        NeverNegative(s, k);
      }
    }
  }

  /** A text without its backslashes and the characters that they hide. */
  function Visible(s: string): (v: string)
    ensures '\\' !in v
  {
    if s == "" then ""
    else if s[0] == '\\' then (if |s| == 1 then "" else Visible(s[2..]))
    else [s[0]] + Visible(s[1..])
  }

  lemma {:induction false} BreaksShift(s: string, i: nat, k: nat, surplus: int)
    requires k <= |s|
    ensures Breaks(s[k..], i, surplus) == Breaks(s, k + i, surplus)
    decreases |s| - i
  {
    if k + i < |s| {
      assert s[k..][i] == s[k + i];
      BreaksShift(s, i + 1, k, surplus);
      BreaksShift(s, i + 1, k, surplus + 1);
      BreaksShift(s, i + 1, k, surplus - 1);
      BreaksShift(s, i + 2, k, surplus);
    }
  }

  lemma {:induction false} BreaksVisible(s: string, surplus: int)
    ensures Breaks(s, 0, surplus) == Breaks(Visible(s), 0, surplus)
    decreases |s|
  {
    if s != "" && s[0] == '\\' {
      if |s| > 1 {
        BreaksShift(s, 0, 2, surplus);
        BreaksVisible(s[2..], surplus);
      }
    } else if s != "" {
      var d := surplus + Turn(s[0]);
      BreaksShift(s, 0, 1, d);
      BreaksVisible(s[1..], d);
      assert Visible(s)[1..] == Visible(s[1..]);
      BreaksShift(Visible(s), 0, 1, d);
    }
  }

  /** For every text, also with backslashes: the scan breaks off exactly if some part of the visible text,
      from its start on, closes more brackets than it opens. */
  lemma ScanIgnoresHidden(s: string)
    ensures Breaks(s, 0, 0) <==> exists k: nat :: k <= |Visible(s)| && Depth(Visible(s)[..k]) < 0
  {
    BreaksVisible(s, 0);
    ScanMeans(Visible(s));
  }

  /** The depth only falls at a closing bracket. */
  lemma {:induction false} NeverNegative(s: string, k: nat)
    requires k <= |s| && forall j :: 0 < j <= |s| && s[j - 1] == ')' ==> Depth(s[..j]) >= 0
    ensures Depth(s[..k]) >= 0
  {
    if k > 0 {
      NeverNegative(s, k - 1);
      DepthSnoc(s, k - 1);
    }
  }

  /** What is inside matching brackets is balanced. */
  lemma InsideBalanced(s: string)
    requires Balanced(s) && '\\' !in s && Strips(s)
    ensures Balanced(Inside(s))
  {
    ScanMeans(Inside(s));
    TrimmedDepth(s);
    BetweenBrackets(s, Lead(s), Trail(s));
    hide Depth, Lead, Trail;
  }

  /** What is between two brackets is as deep as all of it. */
  lemma BetweenBrackets(s: string, a: nat, b: nat)
    requires a + 1 < b <= |s| && s[a] == '(' && s[b - 1] == ')'
    ensures Depth(s[a + 1..b - 1]) == Depth(s[a..b])
  {
    hide Depth;
    BehindBracket(s, a, b);
    var t := s[a + 1..b];
    DepthSnoc(t, |t| - 1);
    assert t[..|t| - 1] == s[a + 1..b - 1] && t[..|t|] == t;
  }

  /** For a balanced text without backslashes: the brackets are removed exactly if the first
      character that is no space opens a bracket that the last character that is no space closes. */
  lemma StripsExactly(s: string)
    requires Balanced(s) && '\\' !in s
    ensures Strips(s) <==> exists a: nat, b: nat :: Matching(s, a, b) && AllSpaces(s[..a]) && AllSpaces(s[b + 1..])
    ensures Strips(s) ==> Balanced(WithoutBrackets(s))
  {
    hide Depth, Balanced, Breaks;
    if a: nat, b: nat :| Matching(s, a, b) && AllSpaces(s[..a]) && AllSpaces(s[b + 1..]) {
      UniqueEnds(s, a, b);
      EnclosedMatches(s);
    }
    if Strips(s) {
      EnclosedMatches(s);
      InsideBalanced(s);
    }
  }
}
