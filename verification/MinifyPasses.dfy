/**
 What the minifier's passes do to tokens of any kind. Every pass drops characters and keeps the rest
 in order, so it is a marking of its text, and leaves the tokens as they are exactly when its marks
 join none. A line, the text as a whole and the minifier do so exactly when no pass over them joins
 two; the passes that only shorten whitespace join none.
 */
module MinifyPasses {
  import opened Marks
  import opened OpenclMinify

  predicate IsOperatorChar(c: char) {
    !IsWord(c) && !IsSpace(c)
  }

  function OperatorKind(c: char): Kind {
    if IsOperatorChar(c) then Inside else Between
  }

  /** Lines without their blanks: what counts is which line a character is on. */
  function LineKind(c: char): Kind {
    if IsLineEnd(c) then Between else if IsSpace(c) then Ignored else Inside
  }

  /** The maximal runs of operator characters, in order. */
  function Operators(s: string): seq<string> {
    Tokens(OperatorKind, s, "")
  }

  /** The lines that are not blank, each without its blanks. */
  function Lines(s: string): seq<string> {
    Tokens(LineKind, s, "")
  }

  /** Whitespace belongs to no token, and a line feed ends tokens. */
  ghost predicate Apt(kinds: Classes) {
    && (forall c: char :: IsSpace(c) ==> !kinds(c).Inside?)
    && kinds('\n').Between?
  }

  lemma KindsAreApt()
    ensures Apt(WordKind) && Apt(OperatorKind) && Apt(LineKind)
  {
    forall c: char ensures IsWord(c) ==> !IsSpace(c) {
      CharacterKinds(c);
    }
  }

  // ---------------------------------------------------------------------------
  // Each pass as marks
  // ---------------------------------------------------------------------------

  /** The marks say what a pass makes of a text: `out` is kept of `s`, and only whitespace is dropped. */
  ghost predicate Makes(m: seq<Mark>, s: string, out: string) {
    && Full(m) == s && Kept(m) == out
    && forall i :: 0 <= i < |m| && m[i].Drop? ==> IsSpace(m[i].c)
  }

  /** One pass changes the tokens exactly when its marks join some. */
  lemma PassSettled(kinds: Classes, m: seq<Mark>, s: string, out: string)
    requires Apt(kinds) && Makes(m, s, out)
    ensures Settled(Joins(kinds, m, false, false), Tokens(kinds, out, ""), Tokens(kinds, s, ""))
  {
    hide Settled, Joins, Tokens, Full, Kept;
    DroppingKeepsTokens(kinds, m);
  }

  lemma MakesNothing()
    ensures Makes([], "", "")
  {
  }

  lemma MakesMore(m: seq<Mark>, s: string, out: string, m': seq<Mark>, s': string, out': string)
    requires Makes(m, s, out) && Makes(m', s', out')
    ensures Makes(m + m', s + s', out + out')
  {
    FullConcat(m, m');
    KeptConcat(m, m');
  }

  lemma MakesKept(s: string)
    ensures Makes(KeepAll(s), s, s)
  {
    AllKept(s);
  }

  ghost predicate AllSpace(s: string) {
    forall i :: 0 <= i < |s| ==> IsSpace(s[i])
  }

  lemma MakesDropped(s: string)
    requires AllSpace(s)
    ensures Makes(DropAll(s), s, "")
  {
    AllDropped(s);
  }

  lemma {:induction false} SpaceRun(s: string, i: nat)
    requires i <= |s|
    ensures AllSpace(s[i..SpaceEnd(s, i)])
    ensures SpaceEnd(s, i) < |s| ==> !IsSpace(s[SpaceEnd(s, i)])
    decreases |s| - i
  {
    if i < |s| && IsSpace(s[i]) {
      SpaceRun(s, i + 1);
      assert s[i..SpaceEnd(s, i)] == [s[i]] + s[i + 1..SpaceEnd(s, i)];
    }
  }

  lemma {:induction false} CharRun(s: string, i: nat, c: char)
    requires i <= |s|
    ensures forall k :: i <= k < RunEnd(s, i, c) ==> s[k] == c
    decreases |s| - i
  {
    if i < |s| && s[i] == c {
      CharRun(s, i + 1, c);
    }
  }

  function MacroMarks(s: string, i: nat): seq<Mark>
    requires i <= |s|
    decreases |s| - i
  {
    if i == |s| then []
    else if AtLineStart(s, i) && s[i] == '#' && i + 1 < |s| && IsSpace(s[i + 1]) then
      [Keep('#')] + (DropAll(s[i + 1..SpaceEnd(s, i + 1)]) + MacroMarks(s, SpaceEnd(s, i + 1)))
    else [Keep(s[i])] + MacroMarks(s, i + 1)
  }

  lemma KeepOne(c: char)
    ensures Makes([Keep(c)], [c], [c])
  {
    assert [Keep(c)][1..] == [];
  }

  lemma {:induction false} MacroMakes(s: string, i: nat)
    requires i <= |s|
    ensures Makes(MacroMarks(s, i), s[i..], MacroSpaces(s, i))
    decreases |s| - i
  {
    hide Makes, AtLineStart, IsSpace, DropAll, AllSpace;
    if i == |s| {
      MakesNothing();
      assert s[i..] == "";
    } else {
      KeepOne(s[i]);
      if AtLineStart(s, i) && s[i] == '#' && i + 1 < |s| && IsSpace(s[i + 1]) {
        var j := SpaceEnd(s, i + 1);
        SpaceRun(s, i + 1);
        MakesDropped(s[i + 1..j]);
        MacroMakes(s, j);
        MakesMore(DropAll(s[i + 1..j]), s[i + 1..j], "", MacroMarks(s, j), s[j..], MacroSpaces(s, j));
        MakesMore([Keep('#')], "#", "#", DropAll(s[i + 1..j]) + MacroMarks(s, j), s[i + 1..j] + s[j..], "" + MacroSpaces(s, j));
        assert s[i..] == "#" + (s[i + 1..j] + s[j..]);
        assert "" + MacroSpaces(s, j) == MacroSpaces(s, j);
      } else {
        MacroMakes(s, i + 1);
        MakesMore([Keep(s[i])], [s[i]], [s[i]], MacroMarks(s, i + 1), s[i + 1..], MacroSpaces(s, i + 1));
        assert s[i..] == [s[i]] + s[i + 1..];
      }
    }
  }

  function RunMarks(s: string, c: char, i: nat): seq<Mark>
    requires i <= |s|
    decreases |s| - i
  {
    if i == |s| then []
    else if s[i] == c && i + 1 < |s| && s[i + 1] == c then
      [Keep(c)] + (DropAll(s[i + 1..RunEnd(s, i, c)]) + RunMarks(s, c, RunEnd(s, i, c)))
    else [Keep(s[i])] + RunMarks(s, c, i + 1)
  }

  lemma {:induction false} RunMakes(s: string, c: char, i: nat)
    requires i <= |s| && IsSpace(c)
    ensures Makes(RunMarks(s, c, i), s[i..], Runs(s, c, i))
    decreases |s| - i
  {
    hide Makes, IsSpace;
    if i == |s| {
      MakesNothing();
      assert s[i..] == "";
    } else {
      KeepOne(s[i]);
      if s[i] == c && i + 1 < |s| && s[i + 1] == c {
        var j := RunEnd(s, i, c);
        CharRun(s, i, c);
        MakesDropped(s[i + 1..j]);
        RunMakes(s, c, j);
        MakesMore(DropAll(s[i + 1..j]), s[i + 1..j], "", RunMarks(s, c, j), s[j..], Runs(s, c, j));
        MakesMore([Keep(c)], [c], [c], DropAll(s[i + 1..j]) + RunMarks(s, c, j), s[i + 1..j] + s[j..], "" + Runs(s, c, j));
        assert s[i..] == [c] + (s[i + 1..j] + s[j..]);
        assert "" + Runs(s, c, j) == Runs(s, c, j);
      } else {
        RunMakes(s, c, i + 1);
        MakesMore([Keep(s[i])], [s[i]], [s[i]], RunMarks(s, c, i + 1), s[i + 1..], Runs(s, c, i + 1));
        assert s[i..] == [s[i]] + s[i + 1..];
      }
    }
  }

  function LeadingMarks(s: string, i: nat): seq<Mark>
    requires i <= |s|
    decreases |s| - i
  {
    if i == |s| then []
    else if AtLineStart(s, i) && IsSpace(s[i]) then DropAll(s[i..SpaceEnd(s, i)]) + LeadingMarks(s, SpaceEnd(s, i))
    else [Keep(s[i])] + LeadingMarks(s, i + 1)
  }

  lemma {:induction false} LeadingMakes(s: string, i: nat)
    requires i <= |s|
    ensures Makes(LeadingMarks(s, i), s[i..], LeadingSpaces(s, i))
    decreases |s| - i
  {
    hide Makes, AtLineStart, IsSpace, DropAll, AllSpace;
    if i == |s| {
      MakesNothing();
      assert s[i..] == "";
    } else if AtLineStart(s, i) && IsSpace(s[i]) {
      var j := SpaceEnd(s, i);
      SpaceRun(s, i);
      MakesDropped(s[i..j]);
      LeadingMakes(s, j);
      MakesMore(DropAll(s[i..j]), s[i..j], "", LeadingMarks(s, j), s[j..], LeadingSpaces(s, j));
      assert s[i..] == s[i..j] + s[j..];
      assert "" + LeadingSpaces(s, j) == LeadingSpaces(s, j);
    } else {
      KeepOne(s[i]);
      LeadingMakes(s, i + 1);
      MakesMore([Keep(s[i])], [s[i]], [s[i]], LeadingMarks(s, i + 1), s[i + 1..], LeadingSpaces(s, i + 1));
      assert s[i..] == [s[i]] + s[i + 1..];
    }
  }

  /** Replacing every occurrence of a pattern whose marks are `inside`. */
  function ReplaceMarks(s: string, pattern: string, inside: seq<Mark>, i: nat): seq<Mark>
    requires i <= |s| && pattern != ""
    decreases |s| - i
  {
    if i == |s| then []
    else if OccursAt(s, pattern, i) then inside + ReplaceMarks(s, pattern, inside, i + |pattern|)
    else [Keep(s[i])] + ReplaceMarks(s, pattern, inside, i + 1)
  }

  lemma {:induction false} ReplaceMakes(s: string, pattern: string, replacement: string, inside: seq<Mark>, i: nat)
    requires i <= |s| && pattern != "" && Makes(inside, pattern, replacement)
    ensures Makes(ReplaceMarks(s, pattern, inside, i), s[i..], ReplaceAll(s, pattern, replacement, i))
    decreases |s| - i
  {
    hide Makes;
    if i == |s| {
      MakesNothing();
      assert s[i..] == "";
    } else if OccursAt(s, pattern, i) {
      var j := i + |pattern|;
      ReplaceMakes(s, pattern, replacement, inside, j);
      MakesMore(inside, pattern, replacement, ReplaceMarks(s, pattern, inside, j), s[j..], ReplaceAll(s, pattern, replacement, j));
      assert s[i..] == pattern + s[j..];
    } else {
      KeepOne(s[i]);
      ReplaceMakes(s, pattern, replacement, inside, i + 1);
      MakesMore([Keep(s[i])], [s[i]], [s[i]], ReplaceMarks(s, pattern, inside, i + 1), s[i + 1..], ReplaceAll(s, pattern, replacement, i + 1));
      assert s[i..] == [s[i]] + s[i + 1..];
    }
  }

  function CommaMarks(): seq<Mark> { [Keep(','), Drop(' ')] }

  function IfMarks(): seq<Mark> { [Keep('i'), Keep('f'), Drop(' '), Keep('(')] }

  function SpacedMarks(op: string): seq<Mark> { [Drop(' ')] + KeepAll(op) + [Drop(' ')] }

  lemma CommaMakes()
    ensures Makes(CommaMarks(), ", ", ",")
  {
    var m := CommaMarks();
    assert m[1..] == [Drop(' ')] && m[1..][1..] == [];
    assert ", " == "," + " ";
  }

  lemma IfMakes()
    ensures Makes(IfMarks(), "if (", "if(")
  {
    var m := IfMarks();
    assert m[1..] == [Keep('f'), Drop(' '), Keep('(')];
    assert m[1..][1..] == [Drop(' '), Keep('(')];
    assert m[1..][1..][1..] == [Keep('(')];
    assert [Keep('(')][1..] == [];
  }

  lemma DropOne()
    ensures Makes([Drop(' ')], " ", "")
  {
    assert [Drop(' ')][1..] == [];
  }

  lemma SpacedMakes(op: string)
    ensures Makes(SpacedMarks(op), " " + op + " ", op)
  {
    hide Makes;
    DropOne();
    MakesKept(op);
    MakesMore([Drop(' ')], " ", "", KeepAll(op), op, op);
    MakesMore([Drop(' ')] + KeepAll(op), " " + op, "" + op, [Drop(' ')], " ", "");
    assert "" + op + "" == op;
  }

  // ---------------------------------------------------------------------------
  // A line
  // ---------------------------------------------------------------------------

  predicate ReplaceJoins(kinds: Classes, s: string, pattern: string, inside: seq<Mark>)
    requires pattern != ""
  {
    Joins(kinds, ReplaceMarks(s, pattern, inside, 0), false, false)
  }

  lemma ReplaceSettled(kinds: Classes, s: string, pattern: string, replacement: string, inside: seq<Mark>)
    requires Apt(kinds) && pattern != "" && Makes(inside, pattern, replacement)
    ensures Settled(ReplaceJoins(kinds, s, pattern, inside),
                    Tokens(kinds, ReplaceAll(s, pattern, replacement, 0), ""), Tokens(kinds, s, ""))
  {
    hide Apt, Makes, Settled, Joins;
    ReplaceMakes(s, pattern, replacement, inside, 0);
    assert s[0..] == s;
    PassSettled(kinds, ReplaceMarks(s, pattern, inside, 0), s, ReplaceAll(s, pattern, replacement, 0));
  }

  predicate TightenJoins(kinds: Classes, line: string, operators: seq<string>, k: nat)
    requires k <= |operators|
  {
    k > 0 && (
      || TightenJoins(kinds, line, operators, k - 1)
      || ReplaceJoins(kinds, Tighten(line, operators, k - 1), " " + operators[k - 1] + " ", SpacedMarks(operators[k - 1])))
  }

  lemma {:induction false} TightenSettled(kinds: Classes, line: string, operators: seq<string>, k: nat)
    requires Apt(kinds) && k <= |operators|
    ensures Settled(TightenJoins(kinds, line, operators, k), Tokens(kinds, Tighten(line, operators, k), ""), Tokens(kinds, line, ""))
  {
    if k > 0 {
      hide Apt, ReplaceJoins, Settled;
      var before, op := Tighten(line, operators, k - 1), operators[k - 1];
      TightenSettled(kinds, line, operators, k - 1);
      SpacedMakes(op);
      ReplaceSettled(kinds, before, " " + op + " ", op, SpacedMarks(op));
      SettledTwice(TightenJoins(kinds, line, operators, k - 1), ReplaceJoins(kinds, before, " " + op + " ", SpacedMarks(op)),
                   Tokens(kinds, line, ""), Tokens(kinds, before, ""), Tokens(kinds, Tighten(line, operators, k), ""));
    }
  }

  /** Some pass over the line joins tokens of what reaches it. */
  predicate LineJoins(kinds: Classes, line: string) {
    var l1 := ReplaceAll(line, ", ", ",", 0);
    var l2 := Tighten(l1, OPERATORS, |OPERATORS|);
    && !(line != "" && line[0] == '#')
    && (|| ReplaceJoins(kinds, line, ", ", CommaMarks())
        || TightenJoins(kinds, l1, OPERATORS, |OPERATORS|)
        || ReplaceJoins(kinds, l2, "if (", IfMarks()))
  }

  lemma LineSettled(kinds: Classes, line: string)
    requires Apt(kinds)
    ensures Settled(LineJoins(kinds, line), Tokens(kinds, MinifyLine(line), ""), Tokens(kinds, line, ""))
  {
    hide Apt, ReplaceJoins, TightenJoins, Settled, Tokens, Tighten, ReplaceAll;
    if line != "" && line[0] == '#' {
      SettledSame(Tokens(kinds, line, ""));
    } else {
      var l1 := ReplaceAll(line, ", ", ",", 0);
      var l2 := Tighten(l1, OPERATORS, |OPERATORS|);
      CommaMakes();
      IfMakes();
      ReplaceSettled(kinds, line, ", ", ",", CommaMarks());
      TightenSettled(kinds, l1, OPERATORS, |OPERATORS|);
      ReplaceSettled(kinds, l2, "if (", "if(", IfMarks());
      var j1, j2 := ReplaceJoins(kinds, line, ", ", CommaMarks()), TightenJoins(kinds, l1, OPERATORS, |OPERATORS|);
      SettledTwice(j1, j2, Tokens(kinds, line, ""), Tokens(kinds, l1, ""), Tokens(kinds, l2, ""));
      SettledTwice(j1 || j2, ReplaceJoins(kinds, l2, "if (", IfMarks()),
                   Tokens(kinds, line, ""), Tokens(kinds, l2, ""), Tokens(kinds, MinifyLine(line), ""));
    }
  }

  /** For each kind of token: the treatment of a line keeps its tokens if and only if none of its passes joins two. */
  lemma {:induction false} LineKeepsIff(kinds: Classes, line: string)
    requires Apt(kinds)
    ensures Tokens(kinds, MinifyLine(line), "") == Tokens(kinds, line, "") <==> !LineJoins(kinds, line)
  {
    hide Tokens, LineJoins, MinifyLine, Settled, Apt;
    LineSettled(kinds, line);
    SettledMeansKept(LineJoins(kinds, line), Tokens(kinds, MinifyLine(line), ""), Tokens(kinds, line, ""));
  }

  lemma SettledSame(tokens: seq<string>)
    ensures Settled(false, tokens, tokens)
  {
  }

  // ---------------------------------------------------------------------------
  // The whole minifier
  // ---------------------------------------------------------------------------

  predicate LinesJoin(kinds: Classes, lines: seq<string>) {
    lines != [] && (LineJoins(kinds, lines[0]) || LinesJoin(kinds, lines[1..]))
  }

  lemma {:induction false} LinesSettled(kinds: Classes, lines: seq<string>)
    requires Apt(kinds) && lines != []
    ensures Settled(LinesJoin(kinds, lines), Tokens(kinds, Join(MinifyLines(lines)), ""), Tokens(kinds, Join(lines), ""))
  {
    hide LineJoins, Settled, Tokens, MinifyLine;
    LineSettled(kinds, lines[0]);
    var rest := MinifyLines(lines[1..]);
    assert MinifyLines(lines)[1..] == rest;
    if |lines| > 1 {
      LinesSettled(kinds, lines[1..]);
      TokensConcat(kinds, lines[0], '\n', Join(lines[1..]), "");
      TokensConcat(kinds, MinifyLine(lines[0]), '\n', Join(rest), "");
      SettledBeside(LineJoins(kinds, lines[0]), LinesJoin(kinds, lines[1..]),
                    Tokens(kinds, lines[0], ""), Tokens(kinds, MinifyLine(lines[0]), ""),
                    Tokens(kinds, Join(lines[1..]), ""), Tokens(kinds, Join(rest), ""));
    } else {
      assert !LinesJoin(kinds, lines[1..]);
    }
  }

  predicate CompactJoins(kinds: Classes, text: string) {
    var t1 := MacroSpaces(text, 0);
    var t2 := Runs(t1, '\n', 0);
    var t3 := LeadingSpaces(t2, 0);
    || Joins(kinds, MacroMarks(text, 0), false, false)
    || Joins(kinds, RunMarks(t1, '\n', 0), false, false)
    || Joins(kinds, LeadingMarks(t2, 0), false, false)
    || Joins(kinds, RunMarks(t3, ' ', 0), false, false)
  }

  lemma CompactSettled(kinds: Classes, text: string)
    requires Apt(kinds)
    ensures Settled(CompactJoins(kinds, text), Tokens(kinds, Compact(text), ""), Tokens(kinds, text, ""))
  {
    hide Apt, Settled, Joins, Tokens, MacroSpaces, Runs, LeadingSpaces, MacroMarks, RunMarks, LeadingMarks, Makes;
    SpaceIsSpace();
    var t1 := MacroSpaces(text, 0);
    var t2 := Runs(t1, '\n', 0);
    var t3 := LeadingSpaces(t2, 0);
    var t4 := Runs(t3, ' ', 0);
    assert text[0..] == text && t1[0..] == t1 && t2[0..] == t2 && t3[0..] == t3;
    MacroMakes(text, 0);
    RunMakes(t1, '\n', 0);
    LeadingMakes(t2, 0);
    RunMakes(t3, ' ', 0);
    PassSettled(kinds, MacroMarks(text, 0), text, t1);
    PassSettled(kinds, RunMarks(t1, '\n', 0), t1, t2);
    PassSettled(kinds, LeadingMarks(t2, 0), t2, t3);
    PassSettled(kinds, RunMarks(t3, ' ', 0), t3, t4);
    var j1 := Joins(kinds, MacroMarks(text, 0), false, false);
    var j2 := Joins(kinds, RunMarks(t1, '\n', 0), false, false);
    var j3 := Joins(kinds, LeadingMarks(t2, 0), false, false);
    SettledTwice(j1, j2, Tokens(kinds, text, ""), Tokens(kinds, t1, ""), Tokens(kinds, t2, ""));
    SettledTwice(j1 || j2, j3, Tokens(kinds, text, ""), Tokens(kinds, t2, ""), Tokens(kinds, t3, ""));
    SettledTwice(j1 || j2 || j3, Joins(kinds, RunMarks(t3, ' ', 0), false, false),
                 Tokens(kinds, text, ""), Tokens(kinds, t3, ""), Tokens(kinds, t4, ""));
  }

  /** Some pass after comment removal joins tokens. */
  predicate MinifyJoins(kinds: Classes, input: string) {
    CompactJoins(kinds, Stripped(input)) || LinesJoin(kinds, Split(Compact(Stripped(input))))
  }

  /** For each kind of token: minifying keeps those of the comment-stripped text if and only if no pass joins two. */
  lemma {:induction false} MinifyKeepsIff(kinds: Classes, input: string)
    requires Apt(kinds)
    ensures Tokens(kinds, Minify(input), "") == Tokens(kinds, Stripped(input), "") <==> !MinifyJoins(kinds, input)
  {
    hide Apt, Settled, CompactJoins, LinesJoin, Tokens, Compact, Split, Join, MinifyLines, Stripped;
    var text := Stripped(input);
    var compact := Compact(text);
    CompactSettled(kinds, text);
    LinesSettled(kinds, Split(compact));
    JoinSplit(compact);
    SettledTwice(CompactJoins(kinds, text), LinesJoin(kinds, Split(compact)),
                 Tokens(kinds, text, ""), Tokens(kinds, compact, ""), Tokens(kinds, Minify(input), ""));
    SettledMeansKept(MinifyJoins(kinds, input), Tokens(kinds, Minify(input), ""), Tokens(kinds, text, ""));
  }

  // ---------------------------------------------------------------------------
  // Passes that never join
  // ---------------------------------------------------------------------------

  /** Line ends end tokens of every kind here. */
  ghost predicate LineEndsBetween(kinds: Classes) {
    forall c: char :: IsLineEnd(c) ==> kinds(c).Between?
  }

  /** Where no token is being read, dropping whitespace joins nothing. */
  lemma {:induction false} DropsUnread(kinds: Classes, run: string, m: seq<Mark>)
    requires Apt(kinds) && AllSpace(run)
    ensures Joins(kinds, DropAll(run) + m, false, false) == Joins(kinds, m, false, false)
  {
    if run == "" {
      assert DropAll(run) + m == m;
    } else {
      assert DropAll(run) + m == [Drop(run[0])] + (DropAll(run[1..]) + m);
      assert (DropAll(run) + m)[1..] == DropAll(run[1..]) + m;
      DropsUnread(kinds, run[1..], m);
      NoReadingNoGap(kinds, DropAll(run[1..]) + m);
    }
  }

  /** Dropping what is ignored joins nothing. */
  lemma {:induction false} DropsIgnored(kinds: Classes, run: string, m: seq<Mark>, reading: bool)
    requires forall i :: 0 <= i < |run| ==> kinds(run[i]).Ignored?
    ensures Joins(kinds, DropAll(run) + m, reading, false) == Joins(kinds, m, reading, false)
  {
    if run == "" {
      assert DropAll(run) + m == m;
    } else {
      assert (DropAll(run) + m)[1..] == DropAll(run[1..]) + m;
      DropsIgnored(kinds, run[1..], m, reading);
    }
  }

  lemma JoinsFirst(kinds: Classes, c: char, m: seq<Mark>, reading: bool)
    ensures Joins(kinds, [Keep(c)] + m, reading, false) ==
      match kinds(c)
      case Inside => Joins(kinds, m, true, false)
      case Between => Joins(kinds, m, false, false)
      case Ignored => Joins(kinds, m, reading, false)
  {
    assert ([Keep(c)] + m)[1..] == m;
  }

  /** Shortening runs of one whitespace character joins nothing. */
  lemma {:induction false} RunsNeverJoin(kinds: Classes, s: string, c: char, i: nat, reading: bool)
    requires Apt(kinds) && i <= |s| && IsSpace(c)
    ensures !Joins(kinds, RunMarks(s, c, i), reading, false)
    decreases |s| - i
  {
    hide Joins, IsSpace;
    if i == |s| {
      NothingJoins(kinds, reading);
    } else if s[i] == c && i + 1 < |s| && s[i + 1] == c {
      var j := RunEnd(s, i, c);
      var rest := RunMarks(s, c, j);
      CharRun(s, i, c);
      JoinsFirst(kinds, c, DropAll(s[i + 1..j]) + rest, reading);
      if kinds(c).Between? {
        DropsUnread(kinds, s[i + 1..j], rest);
        RunsNeverJoin(kinds, s, c, j, false);
      } else {
        DropsIgnored(kinds, s[i + 1..j], rest, reading);
        RunsNeverJoin(kinds, s, c, j, reading);
      }
    } else {
      JoinsFirst(kinds, s[i], RunMarks(s, c, i + 1), reading);
      RunsNeverJoin(kinds, s, c, i + 1, true);
      RunsNeverJoin(kinds, s, c, i + 1, false);
      RunsNeverJoin(kinds, s, c, i + 1, reading);
    }
  }

  lemma NothingJoins(kinds: Classes, reading: bool)
    ensures !Joins(kinds, [], reading, false)
  {
  }

  /** At a line start no token is being read, so removing leading whitespace joins nothing. */
  lemma {:induction false} LeadingNeverJoins(kinds: Classes, s: string, i: nat, reading: bool)
    requires Apt(kinds) && LineEndsBetween(kinds) && i <= |s| && (AtLineStart(s, i) ==> !reading)
    ensures !Joins(kinds, LeadingMarks(s, i), reading, false)
    decreases |s| - i
  {
    hide Joins, IsSpace, IsLineEnd;
    if i == |s| {
      NothingJoins(kinds, reading);
    } else if AtLineStart(s, i) && IsSpace(s[i]) {
      var j := SpaceEnd(s, i);
      SpaceRun(s, i);
      DropsUnread(kinds, s[i..j], LeadingMarks(s, j));
      LeadingNeverJoins(kinds, s, j, false);
    } else {
      JoinsFirst(kinds, s[i], LeadingMarks(s, i + 1), reading);
      if kinds(s[i]).Between? {
        LeadingNeverJoins(kinds, s, i + 1, false);
      } else if kinds(s[i]).Inside? {
        LeadingNeverJoins(kinds, s, i + 1, true);
      } else {
        LeadingNeverJoins(kinds, s, i + 1, reading);
      }
    }
  }

  /** Of the whitespace passes only the one over directives can join. */
  lemma CompactJoinsAtDirectives(kinds: Classes, text: string)
    requires Apt(kinds) && LineEndsBetween(kinds)
    ensures CompactJoins(kinds, text) <==> Joins(kinds, MacroMarks(text, 0), false, false)
  {
    hide Joins, MacroSpaces, Runs, LeadingSpaces, MacroMarks, RunMarks, LeadingMarks, Apt, LineEndsBetween;
    SpaceIsSpace();
    var t1 := MacroSpaces(text, 0);
    var t2 := Runs(t1, '\n', 0);
    RunsNeverJoin(kinds, t1, '\n', 0, false);
    LeadingNeverJoins(kinds, t2, 0, false);
    RunsNeverJoin(kinds, LeadingSpaces(t2, 0), ' ', 0, false);
  }
}
