/**
 The OpenCL source minifier: a pipeline of textual passes. Every pass after comment removal keeps
 one canonical form of the text, in which whitespace is dropped except between two word
 characters that it separates. The form says which characters other than whitespace there are, in
 their order, and where one word ends and the next begins; so no later pass loses or adds a
 character, and none joins or splits a word.
 */
module OpenclMinify {
  import opened Marks

  // ---------------------------------------------------------------------------
  // Characters
  // ---------------------------------------------------------------------------

  /** Whitespace and line ends, as regular expressions of ECMAScript see them. */
  predicate IsSpace(c: char) {
    var n := c as int;
    || 9 <= n <= 13 || n == 32 || n == 0xA0 || n == 0x1680 || 0x2000 <= n <= 0x200A
    || n == 0x2028 || n == 0x2029 || n == 0x202F || n == 0x205F || n == 0x3000 || n == 0xFEFF
  }

  predicate IsLineEnd(c: char) {
    var n := c as int;
    n == 10 || n == 13 || n == 0x2028 || n == 0x2029
  }

  predicate IsWord(c: char) {
    'a' <= c <= 'z' || 'A' <= c <= 'Z' || '0' <= c <= '9' || c == '_'
  }

  lemma CharacterKinds(c: char)
    ensures IsWord(c) ==> !IsSpace(c)
    ensures IsLineEnd(c) ==> IsSpace(c)
  {
  }

  predicate AtLineStart(s: string, i: nat)
    requires i <= |s|
  {
    i == 0 || IsLineEnd(s[i - 1])
  }

  /** The end of the whitespace that starts at i. */
  function SpaceEnd(s: string, i: nat): (j: nat)
    requires i <= |s|
    ensures i <= j <= |s|
    ensures i < |s| && IsSpace(s[i]) ==> i < j
    decreases |s| - i
  {
    if i < |s| && IsSpace(s[i]) then SpaceEnd(s, i + 1) else i
  }

  /** The end of the run of c that starts at i. */
  function RunEnd(s: string, i: nat, c: char): (j: nat)
    requires i <= |s|
    ensures i <= j <= |s|
    ensures i < |s| && s[i] == c ==> i < j
    decreases |s| - i
  {
    if i < |s| && s[i] == c then RunEnd(s, i + 1, c) else i
  }

  // ---------------------------------------------------------------------------
  // The passes: what each makes of the text from i on
  // ---------------------------------------------------------------------------

  /** /\r/g -> '' */
  function DropReturns(s: string, i: nat): string
    requires i <= |s|
    decreases |s| - i
  {
    if i == |s| then ""
    else if s[i] == '\r' then DropReturns(s, i + 1)
    else [s[i]] + DropReturns(s, i + 1)
  }

  /** Behind the first star-slash at or after i, or nothing. */
  function CommentEnd(s: string, i: nat): (j: int)
    ensures j == -1 || i + 2 <= j <= |s|
    decreases |s| - i
  {
    if i + 1 >= |s| then -1
    else if s[i] == '*' && s[i + 1] == '/' then i + 2
    else CommentEnd(s, i + 1)
  }

  function LineEnd(s: string, i: nat): (j: nat)
    requires i <= |s|
    ensures i <= j <= |s|
    decreases |s| - i
  {
    if i < |s| && !IsLineEnd(s[i]) then LineEnd(s, i + 1) else i
  }

  /** Block comments that end, and line comments, are removed. */
  function StripComments(s: string, i: nat): string
    requires i <= |s|
    decreases |s| - i
  {
    if i == |s| then ""
    else if i + 1 < |s| && s[i] == '/' && s[i + 1] == '*' && CommentEnd(s, i + 2) != -1 then
      StripComments(s, CommentEnd(s, i + 2))
    else if i + 1 < |s| && s[i] == '/' && s[i + 1] == '/' then StripComments(s, LineEnd(s, i + 2))
    else [s[i]] + StripComments(s, i + 1)
  }

  /** /^#\s+/gm -> '#' */
  function MacroSpaces(s: string, i: nat): string
    requires i <= |s|
    decreases |s| - i
  {
    if i == |s| then ""
    else if AtLineStart(s, i) && s[i] == '#' && i + 1 < |s| && IsSpace(s[i + 1]) then
      "#" + MacroSpaces(s, SpaceEnd(s, i + 1))
    else [s[i]] + MacroSpaces(s, i + 1)
  }

  /** /c{2,}/g -> c, for newlines and for spaces */
  function Runs(s: string, c: char, i: nat): string
    requires i <= |s|
    decreases |s| - i
  {
    if i == |s| then ""
    else if s[i] == c && i + 1 < |s| && s[i + 1] == c then [c] + Runs(s, c, RunEnd(s, i, c))
    else [s[i]] + Runs(s, c, i + 1)
  }

  /** /^\s+/gm -> '' */
  function LeadingSpaces(s: string, i: nat): string
    requires i <= |s|
    decreases |s| - i
  {
    if i == |s| then ""
    else if AtLineStart(s, i) && IsSpace(s[i]) then LeadingSpaces(s, SpaceEnd(s, i))
    else [s[i]] + LeadingSpaces(s, i + 1)
  }

  predicate OccursAt(s: string, pattern: string, i: nat) {
    i + |pattern| <= |s| && s[i..i + |pattern|] == pattern
  }

  /** Every occurrence of a literal pattern, from left to right, replaced. */
  function ReplaceAll(s: string, pattern: string, replacement: string, i: nat): string
    requires i <= |s| && pattern != ""
    decreases |s| - i
  {
    if i == |s| then ""
    else if OccursAt(s, pattern, i) then replacement + ReplaceAll(s, pattern, replacement, i + |pattern|)
    else [s[i]] + ReplaceAll(s, pattern, replacement, i + 1)
  }

  /** The operators that lose the single space on either side, in the order of the passes. */
  const OPERATORS: seq<string> :=
    ["?", ":", "=", "!=", ">=", "<=", "==", "+=", "-=", "|=", "|", "||", "&", "&&",
     ">", "<", "+", "-", "*", "^", "&", "/", "<<", ">>"]

  function Tighten(line: string, operators: seq<string>, k: nat): string
    requires k <= |operators|
  {
    if k == 0 then line
    else ReplaceAll(Tighten(line, operators, k - 1), " " + operators[k - 1] + " ", operators[k - 1], 0)
  }

  function MinifyLine(line: string): string {
    if line != "" && line[0] == '#' then line
    else ReplaceAll(Tighten(ReplaceAll(line, ", ", ",", 0), OPERATORS, |OPERATORS|), "if (", "if(", 0)
  }

  function Split(s: string): (lines: seq<string>)
    ensures lines != []
  {
    if s == "" then [""]
    else
      var rest := Split(s[1..]);
      if s[0] == '\n' then [""] + rest else [[s[0]] + rest[0]] + rest[1..]
  }

  function MinifyLines(lines: seq<string>): (out: seq<string>)
    ensures |out| == |lines|
  {
    if lines == [] then [] else [MinifyLine(lines[0])] + MinifyLines(lines[1..])
  }

  function Join(lines: seq<string>): string
    requires lines != []
  {
    if |lines| == 1 then lines[0] else lines[0] + "\n" + Join(lines[1..])
  }

  /** The text the later passes start from. */
  function Stripped(input: string): string {
    StripComments(DropReturns(input, 0), 0)
  }

  function Compact(text: string): string {
    Runs(LeadingSpaces(Runs(MacroSpaces(text, 0), '\n', 0), 0), ' ', 0)
  }

  function Minify(input: string): string {
    Join(MinifyLines(Split(Compact(Stripped(input)))))
  }

  // ---------------------------------------------------------------------------
  // The canonical form
  // ---------------------------------------------------------------------------

  /** After other text (or at the start), after a word character, after whitespace behind one. */
  datatype Mode = Other | Word | Gap

  function Step(m: Mode, c: char): Mode {
    if IsSpace(c) then if m.Word? then Gap else m
    else if IsWord(c) then Word
    else Other
  }

  function Emit(m: Mode, c: char): string {
    if IsSpace(c) then ""
    else if IsWord(c) && m.Gap? then [' ', c]
    else [c]
  }

  /** Whitespace dropped, except one space between word characters it separates. */
  function Canon(s: string, m: Mode): string {
    if s == "" then "" else Emit(m, s[0]) + Canon(s[1..], Step(m, s[0]))
  }

  function After(s: string, m: Mode): Mode {
    if s == "" then m else After(s[1..], Step(m, s[0]))
  }

  lemma CanonCons(c: char, t: string, m: Mode)
    ensures Canon([c] + t, m) == Emit(m, c) + Canon(t, Step(m, c))
    ensures After([c] + t, m) == After(t, Step(m, c))
  {
  }

  lemma {:induction false} CanonConcat(a: string, b: string, m: Mode)
    ensures Canon(a + b, m) == Canon(a, m) + Canon(b, After(a, m))
    ensures After(a + b, m) == After(b, After(a, m))
  {
    hide Emit, Step;
    if a == "" {
      assert a + b == b;
      assert "" + Canon(b, m) == Canon(b, m);
    } else {
      assert a + b == [a[0]] + (a[1..] + b);
      CanonCons(a[0], a[1..] + b, m);
      CanonConcat(a[1..], b, Step(m, a[0]));
    }
  }

  lemma CanonDrop(s: string, i: nat, m: Mode)
    requires i < |s|
    ensures Canon(s[i..], m) == Emit(m, s[i]) + Canon(s[i + 1..], Step(m, s[i]))
    ensures After(s[i..], m) == After(s[i + 1..], Step(m, s[i]))
  {
  }

  /** Where no word character stands before, whitespace changes nothing. */
  lemma {:induction false} CanonSkipsSpace(s: string, i: nat, m: Mode)
    requires i <= |s| && !m.Word?
    ensures Canon(s[i..], m) == Canon(s[SpaceEnd(s, i)..], m)
    decreases |s| - i
  {
    hide Canon;
    if i < |s| && IsSpace(s[i]) {
      CanonDrop(s, i, m);
      CanonSkipsSpace(s, i + 1, m);
      assert "" + Canon(s[i + 1..], m) == Canon(s[i + 1..], m);
    }
  }

  lemma {:induction false} MacroSpacesKeeps(s: string, i: nat, m: Mode)
    requires i <= |s|
    ensures Canon(MacroSpaces(s, i), m) == Canon(s[i..], m)
    decreases |s| - i
  {
    hide Canon, AtLineStart;
    if i == |s| {
      assert s[i..] == "";
    } else {
      CanonDrop(s, i, m);
      if AtLineStart(s, i) && s[i] == '#' && i + 1 < |s| && IsSpace(s[i + 1]) {
        var j := SpaceEnd(s, i + 1);
        MacroSpacesKeeps(s, j, Other);
        CanonCons('#', MacroSpaces(s, j), m);
        CanonSkipsSpace(s, i + 1, Other);
      } else {
        MacroSpacesKeeps(s, i + 1, Step(m, s[i]));
        CanonCons(s[i], MacroSpaces(s, i + 1), m);
      }
    }
  }

  /** A second whitespace character changes nothing. */
  lemma {:induction false} CanonSkipsRun(s: string, i: nat, c: char, m: Mode)
    requires i <= |s| && IsSpace(c) && !m.Word?
    ensures Canon(s[i..], m) == Canon(s[RunEnd(s, i, c)..], m)
    decreases |s| - i
  {
    hide Canon, IsSpace;
    if i < |s| && s[i] == c {
      CanonDrop(s, i, m);
      CanonSkipsRun(s, i + 1, c, m);
      assert "" + Canon(s[i + 1..], m) == Canon(s[i + 1..], m);
    }
  }

  lemma {:induction false} RunsKeeps(s: string, c: char, i: nat, m: Mode)
    requires i <= |s| && IsSpace(c)
    ensures Canon(Runs(s, c, i), m) == Canon(s[i..], m)
    decreases |s| - i
  {
    hide Canon, IsSpace;
    if i == |s| {
      assert s[i..] == "";
    } else {
      CanonDrop(s, i, m);
      if s[i] == c && i + 1 < |s| && s[i + 1] == c {
        var j := RunEnd(s, i, c);
        RunsKeeps(s, c, j, Step(m, c));
        CanonCons(c, Runs(s, c, j), m);
        CanonSkipsRun(s, i + 1, c, Step(m, c));
      } else {
        RunsKeeps(s, c, i + 1, Step(m, s[i]));
        CanonCons(s[i], Runs(s, c, i + 1), m);
      }
    }
  }

  /** At a line start no word character stands just before. */
  lemma {:induction false} LeadingSpacesKeeps(s: string, i: nat, m: Mode)
    requires i <= |s| && (AtLineStart(s, i) ==> !m.Word?)
    ensures Canon(LeadingSpaces(s, i), m) == Canon(s[i..], m)
    decreases |s| - i
  {
    hide Canon, IsSpace, IsLineEnd, IsWord;
    if i == |s| {
      assert s[i..] == "";
    } else {
      CharacterKinds(s[i]);
      if AtLineStart(s, i) && IsSpace(s[i]) {
        CanonSkipsSpace(s, i, m);
        LeadingSpacesKeeps(s, SpaceEnd(s, i), m);
      } else {
        CanonDrop(s, i, m);
        LeadingSpacesKeeps(s, i + 1, Step(m, s[i]));
        CanonCons(s[i], LeadingSpaces(s, i + 1), m);
      }
    }
  }

  /** Two texts that no context can tell apart by canonical form. */
  ghost predicate Same(a: string, b: string) {
    forall m: Mode :: Canon(a, m) == Canon(b, m) && After(a, m) == After(b, m)
  }

  lemma SameConcat(a: string, b: string, c: string, d: string)
    requires Same(a, b) && Same(c, d)
    ensures Same(a + c, b + d)
  {
    hide Canon, After;
    forall m: Mode ensures Canon(a + c, m) == Canon(b + d, m) && After(a + c, m) == After(b + d, m) {
      CanonConcat(a, c, m);
      CanonConcat(b, d, m);
    }
  }

  lemma {:induction false} ReplaceAllSame(s: string, pattern: string, replacement: string, i: nat)
    requires i <= |s| && pattern != "" && Same(pattern, replacement)
    ensures Same(ReplaceAll(s, pattern, replacement, i), s[i..])
    decreases |s| - i
  {
    hide Same;
    SameItself("");
    if i == |s| {
      assert s[i..] == "";
    } else if OccursAt(s, pattern, i) {
      var j := i + |pattern|;
      ReplaceAllSame(s, pattern, replacement, j);
      SameTurned(pattern, replacement);
      SameConcat(replacement, pattern, ReplaceAll(s, pattern, replacement, j), s[j..]);
      assert s[i..] == pattern + s[j..];
    } else {
      ReplaceAllSame(s, pattern, replacement, i + 1);
      SameItself([s[i]]);
      SameConcat([s[i]], [s[i]], ReplaceAll(s, pattern, replacement, i + 1), s[i + 1..]);
      assert s[i..] == [s[i]] + s[i + 1..];
    }
  }

  lemma SameItself(a: string)
    ensures Same(a, a)
  {
  }

  lemma SameTurned(a: string, b: string)
    requires Same(a, b)
    ensures Same(b, a)
  {
  }

  lemma SameTrans(a: string, b: string, c: string)
    requires Same(a, b) && Same(b, c)
    ensures Same(a, c)
  {
  }

  predicate IsOperator(op: string) {
    op != "" && forall i :: 0 <= i < |op| ==> !IsWord(op[i]) && !IsSpace(op[i])
  }

  lemma SpaceIsSpace()
    ensures IsSpace(' ') && IsSpace('\n') && !IsWord(' ')
  {
  }

  lemma {:induction false} AfterOperator(op: string, m: Mode)
    requires IsOperator(op)
    ensures After(op, m) == Other
    ensures Canon(op, m) == op
  {
    hide IsWord, IsSpace;
    assert op == [op[0]] + op[1..];
    if |op| > 1 {
      AfterOperator(op[1..], Other);
    } else {
      assert op[1..] == "";
    }
  }

  /** A space on either side of an operator separates no word characters. */
  lemma SpacedOperatorSame(op: string)
    requires IsOperator(op)
    ensures Same(" " + op + " ", op)
  {
    hide Canon, After, IsOperator;
    SpaceIsSpace();
    forall m: Mode ensures Canon(" " + op + " ", m) == Canon(op, m) && After(" " + op + " ", m) == After(op, m) {
      CanonConcat(" " + op, " ", m);
      CanonConcat(" ", op, m);
      OneSpace(m);
      OneSpace(Other);
      AfterOperator(op, m);
      AfterOperator(op, After(" ", m));
      assert "" + op + "" == op;
    }
  }

  lemma OneSpace(m: Mode)
    ensures Canon(" ", m) == "" && After(" ", m) == if m.Word? then Gap else m
  {
  }

  lemma CommaSame()
    ensures Same(", ", ",")
  {
    hide IsOperator;
    forall m: Mode ensures Canon(", ", m) == Canon(",", m) && After(", ", m) == After(",", m) {
      CommaIsOperator();
      assert ", " == "," + " ";
      CanonConcat(",", " ", m);
      AfterOperator(",", m);
      OneSpace(Other);
      assert "," + "" == ",";
    }
  }

  lemma CommaIsOperator()
    ensures IsOperator(",") && IsOperator("(")
  {
  }

  lemma IfSame()
    ensures Same("if (", "if(")
  {
    hide IsOperator, Canon, After;
    forall m: Mode ensures Canon("if (", m) == Canon("if(", m) && After("if (", m) == After("if(", m) {
      CommaIsOperator();
      assert "if (" == "if" + (" " + "(");
      assert "if(" == "if" + "(";
      CanonConcat("if", " " + "(", m);
      CanonConcat("if", "(", m);
      CanonConcat(" ", "(", After("if", m));
      OneSpace(After("if", m));
      AfterOperator("(", After("if", m));
      AfterOperator("(", After(" ", After("if", m)));
      assert "" + "(" == "(";
    }
  }

  lemma OperatorsAreOperators()
    ensures forall k :: 0 <= k < |OPERATORS| ==> IsOperator(OPERATORS[k])
  {
  }

  lemma {:induction false} TightenSame(line: string, operators: seq<string>, k: nat)
    requires k <= |operators| && forall i :: 0 <= i < |operators| ==> IsOperator(operators[i])
    ensures Same(Tighten(line, operators, k), line)
  {
    hide Same, IsOperator;
    if k == 0 {
      SameItself(line);
    } else {
      var before, op := Tighten(line, operators, k - 1), operators[k - 1];
      TightenSame(line, operators, k - 1);
      SpacedOperatorSame(op);
      ReplaceAllSame(before, " " + op + " ", op, 0);
      assert before[0..] == before;
      SameTrans(Tighten(line, operators, k), before, line);
    }
  }

  lemma MinifyLineSame(line: string)
    ensures Same(MinifyLine(line), line)
  {
    hide Same, ReplaceAll, IsOperator, Tighten;
    if line != "" && line[0] == '#' {
      SameItself(line);
    } else {
      var l1 := ReplaceAll(line, ", ", ",", 0);
      CommaSame();
      ReplaceAllSame(line, ", ", ",", 0);
      assert line[0..] == line;
      OperatorsAreOperators();
      var l2 := Tighten(l1, OPERATORS, |OPERATORS|);
      TightenSame(l1, OPERATORS, |OPERATORS|);
      SameTrans(l2, l1, line);
      IfSame();
      ReplaceAllSame(l2, "if (", "if(", 0);
      assert l2[0..] == l2;
      SameTrans(MinifyLine(line), l2, line);
    }
  }

  lemma {:induction false} MinifyLinesSame(lines: seq<string>)
    requires lines != []
    ensures Same(Join(MinifyLines(lines)), Join(lines))
  {
    hide Same, MinifyLine;
    MinifyLineSame(lines[0]);
    var rest := MinifyLines(lines[1..]);
    assert MinifyLines(lines)[1..] == rest;
    if |lines| > 1 {
      MinifyLinesSame(lines[1..]);
      SameItself("\n");
      SameConcat(MinifyLine(lines[0]), lines[0], "\n", "\n");
      SameConcat(MinifyLine(lines[0]) + "\n", lines[0] + "\n", Join(rest), Join(lines[1..]));
    }
  }

  lemma JoinLonger(c: char, lines: seq<string>)
    requires lines != []
    ensures Join([[c] + lines[0]] + lines[1..]) == [c] + Join(lines)
  {
    var longer := [[c] + lines[0]] + lines[1..];
    assert longer[1..] == lines[1..];
    if |lines| > 1 {
      var rest := Join(lines[1..]);
      assert [c] + lines[0] + "\n" + rest == [c] + (lines[0] + "\n" + rest);
    }
  }

  lemma JoinBehindEmpty(lines: seq<string>)
    requires lines != []
    ensures Join([""] + lines) == "\n" + Join(lines)
  {
    assert ([""] + lines)[1..] == lines;
    assert "" + "\n" + Join(lines) == "\n" + Join(lines);
  }

  lemma {:induction false} JoinSplit(s: string)
    ensures Join(Split(s)) == s
  {
    if s != "" {
      hide Join;
      JoinSplit(s[1..]);
      assert s == [s[0]] + s[1..];
      JoinBehindEmpty(Split(s[1..]));
      JoinLonger(s[0], Split(s[1..]));
    }
  }

  lemma CompactKeeps(text: string)
    ensures Canon(Compact(text), Other) == Canon(text, Other)
  {
    hide Canon, MacroSpaces, Runs, LeadingSpaces;
    SpaceIsSpace();
    var t1 := MacroSpaces(text, 0);
    var t2 := Runs(t1, '\n', 0);
    var t3 := LeadingSpaces(t2, 0);
    MacroSpacesKeeps(text, 0, Other);
    RunsKeeps(t1, '\n', 0, Other);
    LeadingSpacesKeeps(t2, 0, Other);
    RunsKeeps(t3, ' ', 0, Other);
    assert text[0..] == text && t1[0..] == t1 && t2[0..] == t2 && t3[0..] == t3;
  }

  /** All passes after comment removal keep the canonical form. */
  lemma MinifyKeepsCanon(input: string)
    ensures Canon(Minify(input), Other) == Canon(Stripped(input), Other)
  {
    hide Canon, Compact, Split, Join, MinifyLines, Stripped;
    var text := Compact(Stripped(input));
    CompactKeeps(Stripped(input));
    MinifyLinesSame(Split(text));
    JoinSplit(text);
  }

  // ---------------------------------------------------------------------------
  // What the canonical form keeps
  // ---------------------------------------------------------------------------

  function NonSpace(s: string): string {
    if s == "" then "" else (if IsSpace(s[0]) then "" else [s[0]]) + NonSpace(s[1..])
  }

  lemma {:induction false} NonSpaceConcat(a: string, b: string)
    ensures NonSpace(a + b) == NonSpace(a) + NonSpace(b)
  {
    hide IsSpace;
    if a == "" {
      assert a + b == b;
    } else {
      assert a + b == [a[0]] + (a[1..] + b);
      assert (a + b)[1..] == a[1..] + b;
      NonSpaceConcat(a[1..], b);
    }
  }

  lemma {:induction false} NonSpaceOfCanon(s: string, m: Mode)
    ensures NonSpace(Canon(s, m)) == NonSpace(s)
  {
    hide IsSpace, IsWord;
    if s != "" {
      NonSpaceOfCanon(s[1..], Step(m, s[0]));
      NonSpaceConcat(Emit(m, s[0]), Canon(s[1..], Step(m, s[0])));
      NonSpaceOfEmit(m, s[0]);
    }
  }

  lemma NonSpaceOfEmit(m: Mode, c: char)
    ensures NonSpace(Emit(m, c)) == if IsSpace(c) then "" else [c]
  {
    hide IsSpace, IsWord;
    SpaceIsSpace();
    CharacterKinds(c);
    assert [c][1..] == "";
    assert NonSpace([c]) == if IsSpace(c) then "" else [c];
    assert [' ', c][1..] == [c];
  }

  function WordKind(c: char): Kind {
    if IsWord(c) then Inside else Between
  }

  /** The maximal runs of word characters, in order; `word` is the run being read. */
  function Words(s: string, word: string): seq<string> {
    Tokens(WordKind, s, word)
  }

  lemma WordsCons(c: char, t: string, word: string)
    ensures Words([c] + t, word) == if IsWord(c) then Words(t, word + [c]) else Flush(word) + Words(t, "")
  {
    TokensCons(WordKind, c, t, word);
  }

  /** The word being read when the canonical form is in a mode: one is only behind a word character. */
  lemma {:induction false} WordsOfCanon(s: string, m: Mode, word: string)
    requires m.Other? ==> word == ""
    ensures m.Word? || m.Other? ==> Words(Canon(s, m), word) == Words(s, word)
    ensures m.Gap? ==> Words(Canon(s, m), word) == Flush(word) + Words(s, "")
    decreases |s|
  {
    hide IsSpace, IsWord, Words, Canon, Flush;
    if s == "" {
      EmptyWords(m, word);
    } else {
      NoWord();
      CharacterKinds(s[0]);
      assert s == [s[0]] + s[1..];
      CanonCons(s[0], s[1..], m);
      WordsCons(s[0], s[1..], word);
      WordsCons(s[0], s[1..], "");
      if IsSpace(s[0]) {
        SpaceWords(s, m, word);
      } else if IsWord(s[0]) {
        WordWords(s, m, word);
      } else {
        WordsOfCanon(s[1..], Other, "");
        WordsCons(s[0], Canon(s[1..], Other), word);
      }
    }
  }

  lemma NoWord()
    ensures Flush("") == []
    ensures forall ws: seq<string> :: [] + ws == ws
  {
  }

  lemma EmptyWords(m: Mode, word: string)
    ensures Canon("", m) == "" && Words("", word) == Flush(word) && Words("", "") == []
  {
  }

  lemma {:induction false} SpaceWords(s: string, m: Mode, word: string)
    requires s != "" && IsSpace(s[0]) && !IsWord(s[0]) && (m.Other? ==> word == "")
    ensures Words(Canon(s, m), word) == Flush(word) + Words(s[1..], "")
    decreases |s|, 0
  {
    hide IsSpace, IsWord, Words, Canon, Flush;
    assert s == [s[0]] + s[1..];
    CanonCons(s[0], s[1..], m);
    assert "" + Canon(s[1..], Step(m, s[0])) == Canon(s[1..], Step(m, s[0]));
    WordsOfCanon(s[1..], Step(m, s[0]), word);
    NoWord();
  }

  lemma {:induction false} WordWords(s: string, m: Mode, word: string)
    requires s != "" && IsWord(s[0]) && !IsSpace(s[0]) && (m.Other? ==> word == "")
    ensures Words(Canon(s, m), word) == (if m.Gap? then Flush(word) + Words(s, "") else Words(s, word))
    decreases |s|, 0
  {
    hide IsSpace, IsWord, Words, Canon, Flush;
    var c, t := s[0], Canon(s[1..], Word);
    assert s == [c] + s[1..];
    CanonCons(c, s[1..], m);
    WordsCons(c, s[1..], word);
    WordsCons(c, s[1..], "");
    if m.Gap? {
      assert [' ', c] + t == [' '] + ([c] + t);
      SpaceIsSpace();
      WordsCons(' ', [c] + t, word);
      WordsCons(c, t, "");
      WordsOfCanon(s[1..], Word, "" + [c]);
    } else {
      WordsCons(c, t, word);
      WordsOfCanon(s[1..], Word, word + [c]);
    }
  }

  /**
   For every input, the minified text has the non-whitespace characters of the comment-stripped
   text, in order, and the same word tokens: none is split and no two are joined.
   */
  lemma MinifyKeepsTokens(input: string)
    ensures NonSpace(Minify(input)) == NonSpace(Stripped(input))
    ensures Words(Minify(input), "") == Words(Stripped(input), "")
  {
    hide *;
    MinifyKeepsCanon(input);
    NonSpaceOfCanon(Minify(input), Other);
    NonSpaceOfCanon(Stripped(input), Other);
    WordsOfCanon(Minify(input), Other, "");
    WordsOfCanon(Stripped(input), Other, "");
  }
}
