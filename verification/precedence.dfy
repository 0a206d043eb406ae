/** Which operator a text is split at, and how texts with two operators are read (src/parse/parse.c). */
module Precedence {
  import opened Nodes
  import opened Splitting
  import opened Brackets
  import opened Parse
  import opened Printer

  /** Two of these characters side by side. */
  ghost predicate Doubled(c: char, m: string) {
    exists i :: 0 <= i < |m| - 1 && m[i] == c && m[i + 1] == c
  }

  /** A bar between two characters that are no bars. */
  ghost predicate SingleBar(m: string) {
    exists i :: 0 < i < |m| - 1 && m[i - 1] != '|' && m[i] == '|' && m[i + 1] != '|'
  }

  /** Which expressions of the priority map match somewhere, character by character. */
  lemma Occurs(m: string)
    ensures Occurrences(And, m) > 0 <==> Doubled('&', m)
    ensures Occurrences(Or, m) > 0 <==> Doubled('|', m)
    ensures Occurrences(Pipe, m) > 0 <==> SingleBar(m)
    ensures Occurrences(Semicolon, m) > 0 <==> ';' in m
  {
    forall op: Kind ensures Occurrences(op, m) > 0 <==> exists j :: 0 <= j < |m| && Hit(op, m, j) {
      SomeHit(op, m);
    }
    hide Occurrences;
    if i :| 0 <= i < |m| - 1 && m[i] == '&' && m[i + 1] == '&' {
      assert Hit(And, m, i);
    }
    if i :| 0 <= i < |m| - 1 && m[i] == '|' && m[i + 1] == '|' {
      assert Hit(Or, m, i);
    }
    if i :| 0 < i < |m| - 1 && m[i - 1] != '|' && m[i] == '|' && m[i + 1] != '|' {
      assert Hit(Pipe, m, i);
    }
    if ';' in m {
      var i :| 0 <= i < |m| && m[i] == ';';
      assert Hit(Semicolon, m, i);
    }
  }

  lemma SomeHit(op: Kind, m: string)
    ensures Occurrences(op, m) > 0 <==> exists j :: 0 <= j < |m| && Hit(op, m, j)
  {
    hide Hit;
    var j := First(op, m, 0);
  }

  ghost predicate IsOp(c: Command, kind: Kind) {
    c.Op? && c.kind == kind
  }

  /** The root of every text that can be parsed, by the characters outside its brackets: && comes
      first, then ||, then a single bar, then a semicolon. */
  lemma RootOperator(raw: string)
    requires ParseText(raw).Some?
    ensures var m, c := Mask(WithoutBrackets(raw)), ParseText(raw).value;
      && (IsOp(c, And) <==> Doubled('&', m))
      && (IsOp(c, Or) <==> Doubled('|', m) && !Doubled('&', m))
      && (IsOp(c, Pipe) <==> SingleBar(m) && !Doubled('|', m) && !Doubled('&', m))
      && (IsOp(c, Semicolon) <==> ';' in m && !SingleBar(m) && !Doubled('|', m) && !Doubled('&', m))
      && (c.Exec? <==> ';' !in m && !SingleBar(m) && !Doubled('|', m) && !Doubled('&', m))
  {
    hide Mask, Strips, Occurrences, Split, Words, ParseAll, Doubled, SingleBar;
    Occurs(Mask(WithoutBrackets(raw)));
  }

  /** A text without operators outside its brackets is one command, whatever its characters are, unless it
      is empty, which is an error. */
  lemma NoOperator(raw: string)
    requires var m := Mask(WithoutBrackets(raw));
             ';' !in m && !SingleBar(m) && !Doubled('|', m) && !Doubled('&', m)
    ensures ParseText(raw) ==
              if WithoutBrackets(raw) == "" then None else Some(Exec(Words(WithoutBrackets(raw))))
    ensures WithoutBrackets(raw) != "" ==> Words(WithoutBrackets(raw)) != []
  {
    hide Mask, Strips, Occurrences, Split, Words, ParseAll, Doubled, SingleBar;
    Occurs(Mask(WithoutBrackets(raw)));
    FirstWord(WithoutBrackets(raw));
  }

  // ---- texts with two operators

  /** The operator on the left binds tighter. */
  lemma LeftNested(tight: Kind, loose: Kind, x: string, y: string, z: string)
    requires Rank(loose) < Rank(tight) && PlainWord(x) && PlainWord(y) && PlainWord(z)
    ensures ParseText(x + Spaced(tight) + y + Spaced(loose) + z)
         == Some(Op(loose, [Op(tight, [Exec([x]), Exec([y])]), Exec([z])]))
  {
    hide ParseText, PlainWord, Spaced;
    var a, b, c := Exec([x]), Exec([y]), Exec([z]);
    TextOfTwo(tight, a, b);
    TextOfTwo(loose, Op(tight, [a, b]), c);
    assert Printable(Op(tight, [a, b]));
    RoundTrip(Op(loose, [Op(tight, [a, b]), c]));
  }

  /** The operator on the right binds tighter. */
  lemma RightNested(loose: Kind, tight: Kind, x: string, y: string, z: string)
    requires Rank(loose) < Rank(tight) && PlainWord(x) && PlainWord(y) && PlainWord(z)
    ensures ParseText(x + Spaced(loose) + y + Spaced(tight) + z)
         == Some(Op(loose, [Exec([x]), Op(tight, [Exec([y]), Exec([z])])]))
  {
    hide ParseText, PlainWord, Spaced;
    var a, b, c := Exec([x]), Exec([y]), Exec([z]);
    TextOfTwo(tight, b, c);
    TextOfTwo(loose, a, Op(tight, [b, c]));
    assert Printable(Op(tight, [b, c]));
    RoundTrip(Op(loose, [a, Op(tight, [b, c])]));
    Regroup(x, Spaced(loose), y, Spaced(tight), z);
  }

  lemma Regroup(x: string, s: string, y: string, t: string, z: string)
    ensures x + s + (y + t + z) == x + s + y + t + z
  {
  }

  lemma OneWord(kind: Kind, w: string)
    ensures Operand(kind, Exec([w])) == w
  {
    assert Text(Exec([w])) == Join([w], " ");
  }

  /** The same operator twice makes one node. */
  lemma Flat(kind: Kind, x: string, y: string, z: string)
    requires PlainWord(x) && PlainWord(y) && PlainWord(z)
    ensures ParseText(x + Spaced(kind) + y + Spaced(kind) + z) == Some(Op(kind, [Exec([x]), Exec([y]), Exec([z])]))
  {
    hide ParseText, PlainWord, Spaced;
    var operands := [Exec([x]), Exec([y]), Exec([z])];
    var texts := Texts(kind, operands);
    OneWord(kind, x);
    OneWord(kind, y);
    OneWord(kind, z);
    assert texts == [x, y, z];
    assert Join(texts[1..][1..], Spaced(kind)) == z;
    assert Join(texts[1..], Spaced(kind)) == y + Spaced(kind) + z;
    Regroup(x, Spaced(kind), y, Spaced(kind), z);
    RoundTrip(Op(kind, operands));
  }

  lemma Separators()
    ensures Spaced(And) == " && " && Spaced(Or) == " || " && Spaced(Pipe) == " | " && Spaced(Semicolon) == " ; "
    ensures Rank(And) < Rank(Or) < Rank(Pipe) < Rank(Semicolon)
  {
  }

  function Word(w: string): Command {
    Exec([w])
  }

  /** With && in a text, it is the root, wherever it stands. */
  lemma AndIsLoosest(x: string, y: string, z: string)
    requires PlainWord(x) && PlainWord(y) && PlainWord(z)
    ensures ParseText(x + " && " + y + " && " + z) == Some(Op(And, [Word(x), Word(y), Word(z)]))
    ensures ParseText(x + " && " + y + " || " + z) == Some(Op(And, [Word(x), Op(Or, [Word(y), Word(z)])]))
    ensures ParseText(x + " || " + y + " && " + z) == Some(Op(And, [Op(Or, [Word(x), Word(y)]), Word(z)]))
    ensures ParseText(x + " && " + y + " | " + z) == Some(Op(And, [Word(x), Op(Pipe, [Word(y), Word(z)])]))
    ensures ParseText(x + " | " + y + " && " + z) == Some(Op(And, [Op(Pipe, [Word(x), Word(y)]), Word(z)]))
    ensures ParseText(x + " && " + y + " ; " + z) == Some(Op(And, [Word(x), Op(Semicolon, [Word(y), Word(z)])]))
    ensures ParseText(x + " ; " + y + " && " + z) == Some(Op(And, [Op(Semicolon, [Word(x), Word(y)]), Word(z)]))
  {
    Separators();
    hide ParseText, PlainWord, Spaced, Rank;
    Flat(And, x, y, z);
    RightNested(And, Or, x, y, z);
    LeftNested(Or, And, x, y, z);
    RightNested(And, Pipe, x, y, z);
    LeftNested(Pipe, And, x, y, z);
    RightNested(And, Semicolon, x, y, z);
    LeftNested(Semicolon, And, x, y, z);
  }

  /** Of the others, || comes first. */
  lemma OrIsNext(x: string, y: string, z: string)
    requires PlainWord(x) && PlainWord(y) && PlainWord(z)
    ensures ParseText(x + " || " + y + " || " + z) == Some(Op(Or, [Word(x), Word(y), Word(z)]))
    ensures ParseText(x + " || " + y + " | " + z) == Some(Op(Or, [Word(x), Op(Pipe, [Word(y), Word(z)])]))
    ensures ParseText(x + " | " + y + " || " + z) == Some(Op(Or, [Op(Pipe, [Word(x), Word(y)]), Word(z)]))
    ensures ParseText(x + " || " + y + " ; " + z) == Some(Op(Or, [Word(x), Op(Semicolon, [Word(y), Word(z)])]))
    ensures ParseText(x + " ; " + y + " || " + z) == Some(Op(Or, [Op(Semicolon, [Word(x), Word(y)]), Word(z)]))
  {
    Separators();
    hide ParseText, PlainWord, Spaced, Rank;
    Flat(Or, x, y, z);
    RightNested(Or, Pipe, x, y, z);
    LeftNested(Pipe, Or, x, y, z);
    RightNested(Or, Semicolon, x, y, z);
    LeftNested(Semicolon, Or, x, y, z);
  }

  /** The bar comes before the semicolon, which binds tightest of all. */
  lemma SemicolonIsTightest(x: string, y: string, z: string)
    requires PlainWord(x) && PlainWord(y) && PlainWord(z)
    ensures ParseText(x + " | " + y + " | " + z) == Some(Op(Pipe, [Word(x), Word(y), Word(z)]))
    ensures ParseText(x + " ; " + y + " ; " + z) == Some(Op(Semicolon, [Word(x), Word(y), Word(z)]))
    ensures ParseText(x + " | " + y + " ; " + z) == Some(Op(Pipe, [Word(x), Op(Semicolon, [Word(y), Word(z)])]))
    ensures ParseText(x + " ; " + y + " | " + z) == Some(Op(Pipe, [Op(Semicolon, [Word(x), Word(y)]), Word(z)]))
  {
    Separators();
    hide ParseText, PlainWord, Spaced, Rank;
    Flat(Pipe, x, y, z);
    Flat(Semicolon, x, y, z);
    RightNested(Pipe, Semicolon, x, y, z);
    LeftNested(Semicolon, Pipe, x, y, z);
  }
}
