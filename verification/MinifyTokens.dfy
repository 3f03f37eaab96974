/**
 What minifying does to words, operators and lines: when each is kept, told by the text, and inputs
 for which it is not.
 */
module MinifyTokens {
  import opened Marks
  import opened MinifyPasses
  import opened OpenclMinify

  // ---------------------------------------------------------------------------
  // Operators
  // ---------------------------------------------------------------------------

  lemma KindsEndLines()
    ensures LineEndsBetween(OperatorKind) && LineEndsBetween(LineKind)
  {
    forall c: char | IsLineEnd(c) ensures OperatorKind(c).Between? && LineKind(c).Between? {
      CharacterKinds(c);
    }
  }

  lemma SpacesOfMarks(m: seq<Mark>, s: string, out: string)
    requires Makes(m, s, out)
    ensures DropsNoToken(OperatorKind, m) && NoneIgnored(OperatorKind, m)
  {
  }

  /**
   Tightening one operator keeps the operators of a text if and only if nowhere two operator
   characters have only dropped spaces between them: no replaced occurrence has one directly before
   its first or behind its last space, nor another replaced occurrence.
   */
  lemma {:induction false} TighteningKeepsOperatorsIff(s: string, op: string)
    ensures Operators(ReplaceAll(s, " " + op + " ", op, 0)) == Operators(s) <==>
      !exists a, b :: Bridge(OperatorKind, ReplaceMarks(s, " " + op + " ", SpacedMarks(op), 0), a, b)
  {
    hide Tokens, Joins, ReplaceMarks, ReplaceAll, SpacedMarks, Makes, Settled, Bridge, Apt, DropsNoToken, NoneIgnored;
    var m := ReplaceMarks(s, " " + op + " ", SpacedMarks(op), 0);
    KindsAreApt();
    SpacedMakes(op);
    ReplaceMakes(s, " " + op + " ", op, SpacedMarks(op), 0);
    assert s[0..] == s;
    PassSettled(OperatorKind, m, s, ReplaceAll(s, " " + op + " ", op, 0));
    SettledMeansKept(Joins(OperatorKind, m, false, false), Operators(ReplaceAll(s, " " + op + " ", op, 0)), Operators(s));
    SpacesOfMarks(m, s, ReplaceAll(s, " " + op + " ", op, 0));
    JoinsMeansBridge(OperatorKind, m);
  }

  // ---------------------------------------------------------------------------
  // Lines
  // ---------------------------------------------------------------------------

  predicate DropsOnlyIgnored(kinds: Classes, m: seq<Mark>) {
    forall i :: 0 <= i < |m| && m[i].Drop? ==> kinds(m[i].c).Ignored?
  }

  lemma {:induction false} IgnoredNeverJoins(kinds: Classes, m: seq<Mark>, reading: bool)
    requires DropsOnlyIgnored(kinds, m)
    ensures !Joins(kinds, m, reading, false)
  {
    if m != [] {
      IgnoredNeverJoins(kinds, m[1..], true);
      IgnoredNeverJoins(kinds, m[1..], false);
      IgnoredNeverJoins(kinds, m[1..], reading);
    }
  }

  lemma {:induction false} ReplaceDropsIgnored(kinds: Classes, s: string, pattern: string, inside: seq<Mark>, i: nat)
    requires i <= |s| && pattern != "" && DropsOnlyIgnored(kinds, inside)
    ensures DropsOnlyIgnored(kinds, ReplaceMarks(s, pattern, inside, i))
    decreases |s| - i
  {
    if i < |s| {
      if OccursAt(s, pattern, i) {
        ReplaceDropsIgnored(kinds, s, pattern, inside, i + |pattern|);
      } else {
        ReplaceDropsIgnored(kinds, s, pattern, inside, i + 1);
      }
    }
  }

  lemma ReplaceKeepsLines(s: string, pattern: string, inside: seq<Mark>)
    requires pattern != "" && DropsOnlyIgnored(LineKind, inside)
    ensures !ReplaceJoins(LineKind, s, pattern, inside)
  {
    ReplaceDropsIgnored(LineKind, s, pattern, inside, 0);
    IgnoredNeverJoins(LineKind, ReplaceMarks(s, pattern, inside, 0), false);
  }

  lemma SpacedDropsBlanks(op: string)
    ensures DropsOnlyIgnored(LineKind, SpacedMarks(op))
  {
    AllKept(op);
    assert LineKind(' ').Ignored?;
  }

  lemma {:induction false} TightenKeepsLines(line: string, operators: seq<string>, k: nat)
    requires k <= |operators|
    ensures !TightenJoins(LineKind, line, operators, k)
  {
    if k > 0 {
      hide ReplaceJoins, DropsOnlyIgnored;
      TightenKeepsLines(line, operators, k - 1);
      SpacedDropsBlanks(operators[k - 1]);
      ReplaceKeepsLines(Tighten(line, operators, k - 1), " " + operators[k - 1] + " ", SpacedMarks(operators[k - 1]));
    }
  }

  lemma LineKeepsLines(line: string)
    ensures !LineJoins(LineKind, line)
  {
    hide ReplaceJoins, TightenJoins, Tighten, ReplaceAll;
    assert LineKind(' ').Ignored?;
    var l1 := ReplaceAll(line, ", ", ",", 0);
    ReplaceKeepsLines(line, ", ", CommaMarks());
    TightenKeepsLines(l1, OPERATORS, |OPERATORS|);
    ReplaceKeepsLines(Tighten(l1, OPERATORS, |OPERATORS|), "if (", IfMarks());
  }

  lemma {:induction false} LinesNeverJoin(lines: seq<string>)
    ensures !LinesJoin(LineKind, lines)
  {
    if lines != [] {
      hide LineJoins;
      LineKeepsLines(lines[0]);
      LinesNeverJoin(lines[1..]);
    }
  }

  predicate HasLineEnd(s: string, i: int, j: int) {
    exists k :: i <= k < j && 0 <= k < |s| && IsLineEnd(s[k])
  }

  // ---------------------------------------------------------------------------
  // Directives
  // ---------------------------------------------------------------------------

  /** Only whitespace is ignored. */
  ghost predicate IgnoresSpaces(kinds: Classes) {
    forall c: char :: kinds(c).Ignored? ==> IsSpace(c)
  }

  /** Something between i and j ends tokens. */
  predicate HasBetween(kinds: Classes, s: string, i: int, j: int) {
    exists k :: i <= k < j && 0 <= k < |s| && kinds(s[k]).Between?
  }

  /** A '#' at a line start, whitespace behind it that ends tokens, and then a character of one. */
  predicate HashJoinsAt(kinds: Classes, s: string, i: int) {
    && 0 <= i < |s| && AtLineStart(s, i) && s[i] == '#'
    && SpaceEnd(s, i + 1) < |s| && kinds(s[SpaceEnd(s, i + 1)]).Inside? && HasBetween(kinds, s, i + 1, SpaceEnd(s, i + 1))
  }

  /** Dropped whitespace opens a gap exactly when some of it ends tokens. */
  lemma {:induction false} DropsOfRun(kinds: Classes, run: string, m: seq<Mark>, reading: bool, gap: bool)
    requires Apt(kinds) && AllSpace(run)
    ensures Joins(kinds, DropAll(run) + m, reading, gap) == Joins(kinds, m, reading, gap || HasBetween(kinds, run, 0, |run|))
  {
    hide IsSpace;
    if run == "" {
      assert DropAll(run) + m == m;
    } else {
      assert (DropAll(run) + m)[1..] == DropAll(run[1..]) + m;
      DropsOfRun(kinds, run[1..], m, reading, gap || kinds(run[0]).Between?);
      BetweenFirst(kinds, run);
    }
  }

  lemma BetweenFirst(kinds: Classes, run: string)
    requires run != ""
    ensures HasBetween(kinds, run, 0, |run|) <==> kinds(run[0]).Between? || HasBetween(kinds, run[1..], 0, |run[1..]|)
  {
    if HasBetween(kinds, run, 0, |run|) && !kinds(run[0]).Between? {
      var k :| 0 <= k < |run| && kinds(run[k]).Between?;
      assert run[1..][k - 1] == run[k];
    }
    if HasBetween(kinds, run[1..], 0, |run[1..]|) {
      var k :| 0 <= k < |run[1..]| && kinds(run[1..][k]).Between?;
      assert run[k + 1] == run[1..][k];
    }
  }

  lemma BetweenInSlice(kinds: Classes, s: string, i: nat, j: nat)
    requires i <= j <= |s|
    ensures HasBetween(kinds, s[i..j], 0, |s[i..j]|) <==> HasBetween(kinds, s, i, j)
  {
    if HasBetween(kinds, s, i, j) {
      var k :| i <= k < j && kinds(s[k]).Between?;
      assert s[i..j][k - i] == s[k];
    }
    if HasBetween(kinds, s[i..j], 0, |s[i..j]|) {
      var k :| 0 <= k < |s[i..j]| && kinds(s[i..j][k]).Between?;
      assert s[k + i] == s[i..j][k];
    }
  }

  ghost predicate HashJoinsFrom(kinds: Classes, s: string, i: nat) {
    exists k :: i <= k && HashJoinsAt(kinds, s, k)
  }

  lemma HashJoinsSplit(kinds: Classes, s: string, i: nat)
    requires i < |s|
    ensures HashJoinsFrom(kinds, s, i) <==> HashJoinsAt(kinds, s, i) || HashJoinsFrom(kinds, s, i + 1)
  {
    hide HashJoinsAt;
  }

  /** No '#' stands inside whitespace. */
  lemma HashJoinsSkips(kinds: Classes, s: string, i: nat, j: nat)
    requires i <= j <= |s| && AllSpace(s[i..j])
    ensures HashJoinsFrom(kinds, s, i) <==> HashJoinsFrom(kinds, s, j)
  {
    forall k | i <= k < j ensures !HashJoinsAt(kinds, s, k) {
      assert IsSpace(s[i..j][k - i]);
    }
  }

  lemma PlainHashAlone(kinds: Classes, s: string, i: nat)
    requires i < |s| && !(AtLineStart(s, i) && s[i] == '#' && i + 1 < |s| && IsSpace(s[i + 1]))
    ensures !HashJoinsAt(kinds, s, i)
  {
  }

  lemma MacroPlain(s: string, i: nat)
    requires i < |s| && !(AtLineStart(s, i) && s[i] == '#' && i + 1 < |s| && IsSpace(s[i + 1]))
    ensures MacroMarks(s, i) == [Keep(s[i])] + MacroMarks(s, i + 1)
  {
  }

  lemma FirstOfMacro(s: string, j: nat)
    requires j < |s|
    ensures MacroMarks(s, j) != [] && MacroMarks(s, j)[0] == Keep(s[j])
  {
  }

  /** The pass over directives joins tokens exactly at such a '#', for every kind of token '#' can be part of. */
  lemma {:induction false} MacroJoinsIff(kinds: Classes, s: string, i: nat, reading: bool)
    requires i <= |s| && Apt(kinds) && IgnoresSpaces(kinds) && kinds('#').Inside?
    ensures Joins(kinds, MacroMarks(s, i), reading, false) <==> HashJoinsFrom(kinds, s, i)
    decreases |s| - i
  {
    hide Joins, IsSpace, IsLineEnd, HashJoinsFrom, HashJoinsAt, Apt, IgnoresSpaces;
    if i == |s| {
      assert MacroMarks(s, i) == [];
      NothingJoins(kinds, reading);
      NoHashAtEnd(kinds, s);
    } else if AtLineStart(s, i) && s[i] == '#' && i + 1 < |s| && IsSpace(s[i + 1]) {
      HashJoinsIff(kinds, s, i, reading);
    } else {
      PlainJoinsIff(kinds, s, i, reading);
    }
  }

  lemma {:induction false} PlainJoinsIff(kinds: Classes, s: string, i: nat, reading: bool)
    requires Apt(kinds) && IgnoresSpaces(kinds) && kinds('#').Inside?
    requires i < |s| && !(AtLineStart(s, i) && s[i] == '#' && i + 1 < |s| && IsSpace(s[i + 1]))
    ensures Joins(kinds, MacroMarks(s, i), reading, false) <==> HashJoinsFrom(kinds, s, i)
    decreases |s| - i, 0
  {
    hide *;
    HashJoinsSplit(kinds, s, i);
    PlainHashAlone(kinds, s, i);
    MacroPlain(s, i);
    JoinsFirst(kinds, s[i], MacroMarks(s, i + 1), reading);
    MacroJoinsIff(kinds, s, i + 1, match kinds(s[i]) case Inside => true case Between => false case Ignored => reading);
  }

  lemma NoHashAtEnd(kinds: Classes, s: string)
    ensures !HashJoinsFrom(kinds, s, |s|)
  {
  }

  lemma {:induction false} HashJoinsIff(kinds: Classes, s: string, i: nat, reading: bool)
    requires Apt(kinds) && IgnoresSpaces(kinds) && kinds('#').Inside?
    requires i + 1 < |s| && AtLineStart(s, i) && s[i] == '#' && IsSpace(s[i + 1])
    ensures Joins(kinds, MacroMarks(s, i), reading, false) <==> HashJoinsFrom(kinds, s, i)
    decreases |s| - i, 0
  {
    hide Joins, IsSpace, IsLineEnd, HashJoinsFrom, Apt, IgnoresSpaces, HasBetween;
    var j := SpaceEnd(s, i + 1);
    var rest := MacroMarks(s, j);
    assert MacroMarks(s, i) == [Keep('#')] + (DropAll(s[i + 1..j]) + rest);
    assert j == |s| ==> rest == [];
    hide MacroMarks, DropAll;
    SpaceRun(s, i + 1);
    HashJoinsSplit(kinds, s, i);
    HashJoinsSkips(kinds, s, i + 1, j);
    JoinsFirst(kinds, '#', DropAll(s[i + 1..j]) + rest, reading);
    DropsOfRun(kinds, s[i + 1..j], rest, true, false);
    BetweenInSlice(kinds, s, i + 1, j);
    MacroJoinsIff(kinds, s, j, true);
    if j < |s| {
      FirstOfMacro(s, j);
      JoinsAtGap(kinds, rest, HasBetween(kinds, s, i + 1, j));
    } else {
      NothingBehind(kinds, true);
      NothingBehind(kinds, false);
      NoHashAtEnd(kinds, s);
    }
  }

  lemma NothingBehind(kinds: Classes, gap: bool)
    ensures !Joins(kinds, [], true, gap)
  {
  }

  /** A gap matters exactly when a token character stands right behind it. */
  lemma JoinsAtGap(kinds: Classes, m: seq<Mark>, gap: bool)
    requires IgnoresSpaces(kinds) && m != [] && m[0].Keep? && !IsSpace(m[0].c)
    ensures Joins(kinds, m, true, gap) <==> (gap && kinds(m[0].c).Inside?) || Joins(kinds, m, true, false)
  {
    hide IsSpace;
  }

  /** A '#' at a line start with the line's end, and more text, in the whitespace behind it. */
  predicate LoneHashAt(s: string, i: int) {
    && 0 <= i < |s| && AtLineStart(s, i) && s[i] == '#'
    && SpaceEnd(s, i + 1) < |s| && HasLineEnd(s, i + 1, SpaceEnd(s, i + 1))
  }

  lemma LoneHashJoins(s: string, i: int)
    ensures LoneHashAt(s, i) <==> HashJoinsAt(LineKind, s, i)
  {
    hide IsLineEnd, IsSpace;
    if 0 <= i < |s| {
      SpaceRun(s, i + 1);
      var j := SpaceEnd(s, i + 1);
      if j < |s| {
        CharacterKinds(s[j]);
      }
      assert HasLineEnd(s, i + 1, j) <==> HasBetween(LineKind, s, i + 1, j);
    }
  }

  /**
   The minifier keeps every character on its line, lines that become empty apart, if and only if no
   '#' at a line start is followed by the end of its line and then, behind whitespace, by more text:
   there the next line joins the directive.
   */
  lemma {:induction false} MinifyKeepsLinesIff(input: string)
    ensures Lines(Minify(input)) == Lines(Stripped(input)) <==> !exists i :: LoneHashAt(Stripped(input), i)
  {
    hide Tokens, Joins, MacroMarks, LinesJoin, CompactJoins, Stripped, Compact, Split, Minify, LoneHashAt, Apt, LineEndsBetween;
    KindsAreApt();
    KindsEndLines();
    MinifyKeepsIff(LineKind, input);
    CompactJoinsAtDirectives(LineKind, Stripped(input));
    LinesNeverJoin(Split(Compact(Stripped(input))));
    LineKindIgnoresSpaces();
    DirectivesJoinIff(LineKind, Stripped(input));
    forall i ensures LoneHashAt(Stripped(input), i) <==> HashJoinsAt(LineKind, Stripped(input), i) {
      LoneHashJoins(Stripped(input), i);
    }
  }

  lemma LineKindIgnoresSpaces()
    ensures IgnoresSpaces(LineKind) && LineKind('#').Inside?
  {
  }

  lemma DirectivesJoinIff(kinds: Classes, s: string)
    requires Apt(kinds) && IgnoresSpaces(kinds) && kinds('#').Inside?
    ensures Joins(kinds, MacroMarks(s, 0), false, false) <==> exists i :: HashJoinsAt(kinds, s, i)
  {
    hide Apt, IgnoresSpaces, Joins, MacroMarks, HashJoinsAt;
    MacroJoinsIff(kinds, s, 0, false);
    if i :| HashJoinsAt(kinds, s, i) {
      HashIsInText(kinds, s, i);
    }
  }

  lemma HashIsInText(kinds: Classes, s: string, i: int)
    requires HashJoinsAt(kinds, s, i)
    ensures 0 <= i
  {
  }

  function LineEnds(s: string): nat {
    if s == "" then 0 else (if IsLineEnd(s[0]) then 1 else 0) + LineEnds(s[1..])
  }

  lemma LineEndFirst(run: string)
    requires run != ""
    ensures HasLineEnd(run, 0, |run|) <==> IsLineEnd(run[0]) || HasLineEnd(run[1..], 0, |run[1..]|)
  {
    if HasLineEnd(run, 0, |run|) && !IsLineEnd(run[0]) {
      var k :| 0 <= k < |run| && IsLineEnd(run[k]);
      assert run[1..][k - 1] == run[k];
    }
    if HasLineEnd(run[1..], 0, |run[1..]|) {
      var k :| 0 <= k < |run[1..]| && IsLineEnd(run[1..][k]);
      assert run[k + 1] == run[1..][k];
    }
  }

  lemma LineEndInSlice(s: string, i: nat, j: nat)
    requires i <= j <= |s|
    ensures HasLineEnd(s[i..j], 0, |s[i..j]|) <==> HasLineEnd(s, i, j)
  {
    if HasLineEnd(s, i, j) {
      var k :| i <= k < j && IsLineEnd(s[k]);
      assert s[i..j][k - i] == s[k];
    }
    if HasLineEnd(s[i..j], 0, |s[i..j]|) {
      var k :| 0 <= k < |s[i..j]| && IsLineEnd(s[i..j][k]);
      assert s[k + i] == s[i..j][k];
    }
  }

  lemma {:induction false} LineEndsConcat(a: string, b: string)
    ensures LineEnds(a + b) == LineEnds(a) + LineEnds(b)
  {
    hide IsLineEnd;
    if a == "" {
      assert a + b == b;
    } else {
      assert (a + b)[1..] == a[1..] + b;
      LineEndsConcat(a[1..], b);
    }
  }

  lemma {:induction false} LineEndsPositive(s: string)
    ensures LineEnds(s) > 0 <==> HasLineEnd(s, 0, |s|)
  {
    if s != "" {
      hide IsLineEnd;
      LineEndsPositive(s[1..]);
      LineEndFirst(s);
    }
  }

  /** A '#' at a line start whose following whitespace holds a line end, with or without text behind it. */
  predicate HashBeforeLineEnd(s: string, i: int) {
    0 <= i < |s| && AtLineStart(s, i) && s[i] == '#' && HasLineEnd(s, i + 1, SpaceEnd(s, i + 1))
  }

  ghost predicate HashFrom(s: string, i: nat) {
    exists k :: i <= k && HashBeforeLineEnd(s, k)
  }

  lemma HashSplit(s: string, i: nat)
    requires i < |s|
    ensures HashFrom(s, i) <==> HashBeforeLineEnd(s, i) || HashFrom(s, i + 1)
  {
    hide HashBeforeLineEnd;
  }

  lemma HashSkips(s: string, i: nat, j: nat)
    requires i <= j <= |s| && AllSpace(s[i..j])
    ensures HashFrom(s, i) <==> HashFrom(s, j)
  {
    forall k | i <= k < j ensures !HashBeforeLineEnd(s, k) {
      assert IsSpace(s[i..j][k - i]);
    }
  }

  lemma {:induction false} DirectivesAndLineEnds(s: string, i: nat)
    requires i <= |s|
    ensures LineEnds(MacroSpaces(s, i)) <= LineEnds(s[i..])
    ensures LineEnds(MacroSpaces(s, i)) == LineEnds(s[i..]) <==> !HashFrom(s, i)
    decreases |s| - i
  {
    hide IsSpace, IsLineEnd, HashFrom, HashBeforeLineEnd, LineEnds;
    if i == |s| {
      assert s[i..] == "" && !HashFrom(s, i) by { NoDirectiveAtEnd(s); }
    } else if AtLineStart(s, i) && s[i] == '#' && i + 1 < |s| && IsSpace(s[i + 1]) {
      DirectiveLineEnds(s, i);
    } else {
      HashSplit(s, i);
      NoHashHere(s, i);
      DirectivesAndLineEnds(s, i + 1);
      assert s[i..] == [s[i]] + s[i + 1..];
      LineEndsConcat([s[i]], s[i + 1..]);
      LineEndsConcat([s[i]], MacroSpaces(s, i + 1));
    }
  }

  lemma {:induction false} DirectiveLineEnds(s: string, i: nat)
    requires i + 1 < |s| && AtLineStart(s, i) && s[i] == '#' && IsSpace(s[i + 1])
    ensures LineEnds(MacroSpaces(s, i)) <= LineEnds(s[i..])
    ensures LineEnds(MacroSpaces(s, i)) == LineEnds(s[i..]) <==> !HashFrom(s, i)
    decreases |s| - i, 0
  {
    hide IsSpace, IsLineEnd, HashFrom, HashBeforeLineEnd, LineEnds, HasLineEnd;
    var j := SpaceEnd(s, i + 1);
    assert MacroSpaces(s, i) == "#" + MacroSpaces(s, j);
    hide MacroSpaces;
    HashSplit(s, i);
    SpaceRun(s, i + 1);
    HashSkips(s, i + 1, j);
    DirectivesAndLineEnds(s, j);
    assert s[i..] == "#" + (s[i + 1..j] + s[j..]);
    LineEndsConcat("#", s[i + 1..j] + s[j..]);
    LineEndsConcat(s[i + 1..j], s[j..]);
    LineEndsConcat("#", MacroSpaces(s, j));
    LineEndsPositive(s[i + 1..j]);
    LineEndInSlice(s, i + 1, j);
    HashHere(s, i);
  }

  lemma NoDirectiveAtEnd(s: string)
    ensures !HashFrom(s, |s|)
  {
  }

  lemma HashHere(s: string, i: nat)
    requires i + 1 < |s| && AtLineStart(s, i) && s[i] == '#'
    ensures HashBeforeLineEnd(s, i) <==> HasLineEnd(s, i + 1, SpaceEnd(s, i + 1))
  {
  }

  lemma NoHashHere(s: string, i: nat)
    requires i < |s| && !(AtLineStart(s, i) && s[i] == '#' && i + 1 < |s| && IsSpace(s[i + 1]))
    ensures !HashBeforeLineEnd(s, i)
  {
  }

  /**
   The pass over directives keeps the number of line ends if and only if no '#' at a line start is
   followed by whitespace that holds one.
   */
  lemma DirectivesKeepLineEndsIff(s: string)
    ensures LineEnds(MacroSpaces(s, 0)) == LineEnds(s) <==> !exists i :: HashBeforeLineEnd(s, i)
  {
    hide HashBeforeLineEnd, LineEnds, MacroSpaces;
    DirectivesAndLineEnds(s, 0);
    assert s[0..] == s;
    HashFromStart(s);
  }

  lemma HashFromStart(s: string)
    ensures HashFrom(s, 0) <==> exists i :: HashBeforeLineEnd(s, i)
  {
    if i :| HashBeforeLineEnd(s, i) {
      assert 0 <= i;
    }
  }

  // ---------------------------------------------------------------------------
  // Words, from the source on
  // ---------------------------------------------------------------------------

  /** Comment removal as marks: each comment is one dropped blank. */
  function CommentMarks(s: string, i: nat): seq<Mark>
    requires i <= |s|
    decreases |s| - i
  {
    if i == |s| then []
    else if i + 1 < |s| && s[i] == '/' && s[i + 1] == '*' && CommentEnd(s, i + 2) != -1 then
      [Drop(' ')] + CommentMarks(s, CommentEnd(s, i + 2))
    else if i + 1 < |s| && s[i] == '/' && s[i + 1] == '/' then [Drop(' ')] + CommentMarks(s, LineEnd(s, i + 2))
    else [Keep(s[i])] + CommentMarks(s, i + 1)
  }

  /** The text with a space in place of each comment, as the language reads it. */
  function Spaced(s: string, i: nat): string
    requires i <= |s|
    decreases |s| - i
  {
    if i == |s| then ""
    else if i + 1 < |s| && s[i] == '/' && s[i + 1] == '*' && CommentEnd(s, i + 2) != -1 then
      " " + Spaced(s, CommentEnd(s, i + 2))
    else if i + 1 < |s| && s[i] == '/' && s[i + 1] == '/' then " " + Spaced(s, LineEnd(s, i + 2))
    else [s[i]] + Spaced(s, i + 1)
  }

  function ReturnMarks(s: string, i: nat): seq<Mark>
    requires i <= |s|
    decreases |s| - i
  {
    if i == |s| then [] else [if s[i] == '\r' then Drop(s[i]) else Keep(s[i])] + ReturnMarks(s, i + 1)
  }

  lemma {:induction false} CommentsMake(s: string, i: nat)
    requires i <= |s|
    ensures Makes(CommentMarks(s, i), Spaced(s, i), StripComments(s, i))
    decreases |s| - i
  {
    hide Makes, CommentEnd, LineEnd;
    DropOne();
    if i == |s| {
      MakesNothing();
    } else if i + 1 < |s| && s[i] == '/' && s[i + 1] == '*' && CommentEnd(s, i + 2) != -1 {
      CommentMakes(s, CommentEnd(s, i + 2), i);
    } else if i + 1 < |s| && s[i] == '/' && s[i + 1] == '/' {
      CommentMakes(s, LineEnd(s, i + 2), i);
    } else {
      KeepOne(s[i]);
      CommentsMake(s, i + 1);
      MakesMore([Keep(s[i])], [s[i]], [s[i]], CommentMarks(s, i + 1), Spaced(s, i + 1), StripComments(s, i + 1));
    }
  }

  lemma {:induction false} CommentMakes(s: string, j: nat, i: nat)
    requires i < j <= |s|
    ensures Makes([Drop(' ')] + CommentMarks(s, j), " " + Spaced(s, j), StripComments(s, j))
    decreases |s| - i, 0
  {
    hide Makes, CommentMarks, Spaced, StripComments;
    DropOne();
    CommentsMake(s, j);
    MakesMore([Drop(' ')], " ", "", CommentMarks(s, j), Spaced(s, j), StripComments(s, j));
    assert "" + StripComments(s, j) == StripComments(s, j);
  }

  lemma {:induction false} ReturnsMake(s: string, i: nat)
    requires i <= |s|
    ensures Makes(ReturnMarks(s, i), s[i..], DropReturns(s, i))
    decreases |s| - i
  {
    hide Makes;
    if i == |s| {
      MakesNothing();
      assert s[i..] == "";
    } else {
      ReturnsMake(s, i + 1);
      KeepOne(s[i]);
      ReturnDropped();
      var first := if s[i] == '\r' then Drop(s[i]) else Keep(s[i]);
      var out := if s[i] == '\r' then "" else [s[i]];
      MakesMore([first], [s[i]], out, ReturnMarks(s, i + 1), s[i + 1..], DropReturns(s, i + 1));
      assert s[i..] == [s[i]] + s[i + 1..];
      assert "" + DropReturns(s, i + 1) == DropReturns(s, i + 1);
    }
  }

  lemma ReturnDropped()
    ensures Makes([Drop('\r')], "\r", "")
  {
    assert [Drop('\r')][1..] == [];
  }

  lemma WordMarks(m: seq<Mark>, s: string, out: string)
    requires Makes(m, s, out)
    ensures Words(out, "") == Words(s, "") <==> !exists a, b :: Bridge(WordKind, m, a, b)
  {
    hide Tokens, Joins, Settled, Bridge, Apt;
    KindsAreApt();
    PassSettled(WordKind, m, s, out);
    SettledMeansKept(Joins(WordKind, m, false, false), Words(out, ""), Words(s, ""));
    SpacesNoWord(m, s, out);
    JoinsMeansBridge(WordKind, m);
  }

  lemma SpacesNoWord(m: seq<Mark>, s: string, out: string)
    requires Makes(m, s, out)
    ensures DropsNoToken(WordKind, m) && NoneIgnored(WordKind, m)
  {
    forall i | 0 <= i < |m| && m[i].Drop? ensures !WordKind(m[i].c).Inside? {
      CharacterKinds(m[i].c);
    }
  }

  /**
   Comment removal keeps the words of a text, a comment counting as a space, if and only if nowhere
   two word characters have only comments between them.
   */
  lemma CommentRemovalKeepsWordsIff(s: string)
    ensures Words(StripComments(s, 0), "") == Words(Spaced(s, 0), "") <==>
      !exists a, b :: Bridge(WordKind, CommentMarks(s, 0), a, b)
  {
    hide Words, CommentMarks, Spaced, StripComments, Makes, Bridge;
    CommentsMake(s, 0);
    WordMarks(CommentMarks(s, 0), Spaced(s, 0), StripComments(s, 0));
  }

  /** Removing carriage returns keeps the words if and only if none stands alone between two word characters. */
  lemma ReturnRemovalKeepsWordsIff(s: string)
    ensures Words(DropReturns(s, 0), "") == Words(s, "") <==> !exists a, b :: Bridge(WordKind, ReturnMarks(s, 0), a, b)
  {
    hide Words, ReturnMarks, DropReturns, Makes, Bridge;
    ReturnsMake(s, 0);
    assert s[0..] == s;
    WordMarks(ReturnMarks(s, 0), s, DropReturns(s, 0));
  }

  /** The whole minifier keeps the words of the source, carriage returns aside, exactly under that condition on comments. */
  lemma MinifyKeepsSourceWordsIff(input: string)
    ensures var text := DropReturns(input, 0);
      Words(Minify(input), "") == Words(Spaced(text, 0), "") <==> !exists a, b :: Bridge(WordKind, CommentMarks(text, 0), a, b)
  {
    hide Words, CommentMarks, Spaced, StripComments, Minify, Bridge, DropReturns;
    MinifyKeepsTokens(input);
    CommentRemovalKeepsWordsIff(DropReturns(input, 0));
  }

  // ---------------------------------------------------------------------------
  // Inputs that lose tokens
  // ---------------------------------------------------------------------------

  lemma {:induction false} NoOccurrence(s: string, pattern: string, replacement: string, i: nat)
    requires i <= |s| && pattern != "" && forall k: nat :: i <= k ==> !OccursAt(s, pattern, k)
    ensures ReplaceAll(s, pattern, replacement, i) == s[i..]
    decreases |s| - i
  {
    hide OccursAt;
    if i < |s| {
      NoOccurrence(s, pattern, replacement, i + 1);
    }
  }

  lemma {:induction false} NothingStripped(s: string, i: nat)
    requires i <= |s| && '\r' !in s && '/' !in s
    ensures DropReturns(s, i) == s[i..] && StripComments(s, i) == s[i..]
    decreases |s| - i
  {
    if i < |s| {
      NothingStripped(s, i + 1);
    }
  }

  /** A text of one line without '#', with single spaces and none in front. */
  predicate OneTidyLine(s: string) {
    && (forall i :: 0 <= i < |s| ==> s[i] != '#' && (IsSpace(s[i]) ==> s[i] == ' '))
    && (s != "" ==> s[0] != ' ')
    && (forall i :: 0 <= i < |s| - 1 ==> s[i] != ' ' || s[i + 1] != ' ')
  }

  lemma {:induction false} TidyPasses(s: string, i: nat)
    requires i <= |s| && OneTidyLine(s)
    ensures MacroSpaces(s, i) == s[i..] && LeadingSpaces(s, i) == s[i..]
    ensures Runs(s, '\n', i) == s[i..] && Runs(s, ' ', i) == s[i..]
    decreases |s| - i
  {
    if i < |s| {
      TidyPasses(s, i + 1);
      assert IsSpace('\n');
      if i > 0 {
        CharacterKinds(s[i - 1]);
      }
    }
  }

  lemma {:induction false} TidySplit(s: string)
    requires '\n' !in s
    ensures Split(s) == [s]
  {
    if s != "" {
      TidySplit(s[1..]);
      assert [s[0]] + s[1..] == s;
    }
  }

  /** A tidy line without slashes only goes through the passes over a line. */
  lemma MinifyTidy(s: string)
    requires OneTidyLine(s) && '\r' !in s && '/' !in s && '\n' !in s
    ensures Minify(s) == MinifyLine(s)
  {
    hide MinifyLine, DropReturns, StripComments, MacroSpaces, LeadingSpaces, Runs, Split;
    NothingStripped(s, 0);
    TidyPasses(s, 0);
    TidySplit(s);
    assert s[0..] == s;
    assert [s][1..] == [];
  }

  /** A pattern with a character the text does not have occurs nowhere. */
  lemma NotWithout(s: string, pattern: string, i: nat, k: nat)
    requires i < |pattern| && pattern[i] !in s
    ensures !OccursAt(s, pattern, k)
  {
    if OccursAt(s, pattern, k) {
      OccurrenceChars(s, pattern, k, i);
    }
  }

  lemma OccurrenceChars(s: string, pattern: string, k: nat, i: nat)
    requires OccursAt(s, pattern, k) && i < |pattern|
    ensures k + i < |s| && s[k + i] == pattern[i]
  {
    assert s[k..k + |pattern|][i] == pattern[i];
  }

  lemma Untouched(s: string, pattern: string, i: nat, replacement: string)
    requires i < |pattern| && pattern[i] !in s
    ensures ReplaceAll(s, pattern, replacement, 0) == s
  {
    forall k: nat ensures !OccursAt(s, pattern, k) {
      NotWithout(s, pattern, i, k);
    }
    NoOccurrence(s, pattern, replacement, 0);
    assert s[0..] == s;
  }

  /** Once no space is left, no operator is tightened any more. */
  lemma {:induction false} NothingToTighten(line: string, operators: seq<string>, j: nat, k: nat)
    requires j <= k <= |operators| && ' ' !in Tighten(line, operators, j)
    ensures Tighten(line, operators, k) == Tighten(line, operators, j)
  {
    if j < k {
      hide ReplaceAll;
      NothingToTighten(line, operators, j, k - 1);
      Untouched(Tighten(line, operators, j), " " + operators[k - 1] + " ", 0, operators[k - 1]);
    }
  }

  lemma DashAt(k: nat)
    requires k < |OPERATORS|
    ensures OPERATORS[k] == "-" <==> k == 17
    ensures OPERATORS[k] != ""
  {
  }

  const TWO_MINUSES := "a - -b"

  /** Its only two spaces stand around one '-'. */
  lemma OnlyDashOccurs(op: string, k: nat)
    requires op != "-" && op != ""
    ensures !OccursAt(TWO_MINUSES, " " + op + " ", k)
  {
    var p := " " + op + " ";
    if |op| == 1 {
      assert op == [op[0]];
    }
    if OccursAt(TWO_MINUSES, p, k) {
      OccurrenceChars(TWO_MINUSES, p, k, 0);
      OccurrenceChars(TWO_MINUSES, p, k, 1);
      OccurrenceChars(TWO_MINUSES, p, k, |p| - 1);
    }
  }

  lemma {:induction false} TightenBeforeDash(k: nat)
    requires k <= 17
    ensures Tighten(TWO_MINUSES, OPERATORS, k) == TWO_MINUSES
  {
    if k > 0 {
      hide ReplaceAll, OccursAt;
      TightenBeforeDash(k - 1);
      DashAt(k - 1);
      var op := OPERATORS[k - 1];
      forall j: nat ensures !OccursAt(TWO_MINUSES, " " + op + " ", j) {
        OnlyDashOccurs(op, j);
      }
      NoOccurrence(TWO_MINUSES, " " + op + " ", op, 0);
      assert TWO_MINUSES[0..] == TWO_MINUSES;
    }
  }

  lemma TightenDash()
    ensures ReplaceAll(TWO_MINUSES, " - ", "-", 0) == "a--b"
  {
    var s := TWO_MINUSES;
    assert ReplaceAll(s, " - ", "-", 5) == "b";
    assert ReplaceAll(s, " - ", "-", 4) == "-b";
    assert OccursAt(s, " - ", 1);
    assert ReplaceAll(s, " - ", "-", 1) == "-" + "-b";
    assert !OccursAt(s, " - ", 0) by { assert s[0..3][0] == 'a'; }
  }

  lemma TightenTwoMinuses()
    ensures Tighten(TWO_MINUSES, OPERATORS, |OPERATORS|) == "a--b"
  {
    hide ReplaceAll;
    TightenBeforeDash(17);
    DashAt(17);
    TightenDash();
    assert " " + "-" + " " == " - ";
    assert Tighten(TWO_MINUSES, OPERATORS, 18) == "a--b";
    NothingToTighten(TWO_MINUSES, OPERATORS, 18, |OPERATORS|);
  }

  /** Only word tokens are safe: the minifier makes one operator of two. */
  lemma OperatorsCanMerge()
    ensures Minify("a - -b") == "a--b"
  {
    hide ReplaceAll, Tighten, Minify, OneTidyLine;
    TwoMinusesTidy();
    MinifyTidy(TWO_MINUSES);
    Untouched(TWO_MINUSES, ", ", 0, ",");
    TightenTwoMinuses();
    assert "if ("[2] == ' ';
    Untouched("a--b", "if (", 2, "if(");
  }

  lemma TwoMinusesTidy()
    ensures OneTidyLine(TWO_MINUSES)
  {
  }

  /** A line without spaces stays as it is. */
  lemma LineWithoutSpaces(line: string)
    requires ' ' !in line
    ensures MinifyLine(line) == line
  {
    hide ReplaceAll, Tighten;
    Untouched(line, ", ", 1, ",");
    assert Tighten(line, OPERATORS, 0) == line by { TightenNone(line); }
    NothingToTighten(line, OPERATORS, 0, |OPERATORS|);
    assert "if ("[2] == ' ';
    Untouched(line, "if (", 2, "if(");
  }

  lemma TightenNone(line: string)
    ensures Tighten(line, OPERATORS, 0) == line
  {
  }

  /** Comment removal joins what only a comment separated. */
  lemma CommentRemovalJoinsWords()
    ensures Minify("a/**/b") == "ab"
  {
    hide Stripped, Compact, Split, Join, MinifyLines;
    EmptyCommentGoes();
    ShortWordStays();
  }

  lemma EmptyCommentGoes()
    ensures Stripped("a/**/b") == "ab"
  {
    var s := "a/**/b";
    assert DropReturns(s, 4) == "/b";
    assert DropReturns(s, 2) == "**/b";
    assert DropReturns(s, 0) == s;
    assert CommentEnd(s, 3) == 5;
    assert StripComments(s, 5) == "b";
    assert StripComments(s, 1) == "b";
  }

  lemma ShortWordStays()
    ensures Join(MinifyLines(Split(Compact("ab")))) == "ab"
  {
    hide MinifyLine, MacroSpaces, LeadingSpaces, Runs, Split;
    TidyPasses("ab", 0);
    TidySplit("ab");
    assert "ab"[0..] == "ab";
    LineWithoutSpaces("ab");
    assert ["ab"][1..] == [];
  }

  /** The line break behind a lone '#' goes, so the next line joins the directive. */
  lemma LoneHashTakesNextLine()
    ensures Minify("#\nint") == "#int"
  {
    hide Join, MinifyLines, Split;
    var s := "#\nint";
    NothingStripped(s, 0);
    assert s[0..] == s;
    assert SpaceEnd(s, 1) == 2;
    assert MacroSpaces(s, 4) == "t";
    assert MacroSpaces(s, 3) == "nt";
    assert MacroSpaces(s, 2) == "int";
    assert MacroSpaces(s, 0) == "#int";
    DirectiveStays();
  }

  lemma DirectiveStays()
    ensures Runs(LeadingSpaces(Runs("#int", '\n', 0), 0), ' ', 0) == "#int"
    ensures Join(MinifyLines(Split("#int"))) == "#int"
  {
    DirectivePasses();
    TidySplit("#int");
    assert ["#int"][1..] == [];
  }

  lemma DirectivePasses()
    ensures Runs("#int", '\n', 0) == "#int" && Runs("#int", ' ', 0) == "#int" && LeadingSpaces("#int", 0) == "#int"
  {
    var s := "#int";
    assert Runs(s, '\n', 2) == "nt" && Runs(s, ' ', 2) == "nt";
    assert LeadingSpaces(s, 2) == "nt";
  }
}
