/**
 When the minifier keeps the operators of a source, told by the text of its lines: which spaces
 would have to go for two operators to become one.
 */
module MinifyOperators {
  import opened Marks
  import opened MinifyPasses
  import opened MinifyTokens
  import opened OpenclMinify

  predicate IsOperatorAt(s: string, i: int) {
    0 <= i < |s| && IsOperatorChar(s[i])
  }

  /** No two spaces stand side by side. */
  predicate SingleSpaced(s: string) {
    forall i :: 0 <= i < |s| - 1 ==> s[i] != ' ' || s[i + 1] != ' '
  }

  /** The operator stands at i between single spaces, and on one side a further operator character follows. */
  predicate ClashAt(s: string, op: string, i: int) {
    0 <= i && OccursAt(s, " " + op + " ", i) && (IsOperatorAt(s, i - 1) || IsOperatorAt(s, i + |op| + 2))
  }

  ghost predicate Clashes(s: string, op: string) {
    exists i :: ClashAt(s, op, i)
  }

  /** A comma and a space stand at i, and an operator character follows. */
  predicate CommaClashAt(s: string, i: int) {
    0 <= i && OccursAt(s, ", ", i) && IsOperatorAt(s, i + 2)
  }

  /** What a line must not have: it is no directive, and has a comma or an operator that clashes. */
  ghost predicate LineClashes(line: string) {
    && !(line != "" && line[0] == '#')
    && ((exists i :: CommaClashAt(line, i)) || exists k :: 0 <= k < |OPERATORS| && Clashes(line, OPERATORS[k]))
  }

  // ---------------------------------------------------------------------------
  // The space that must stay
  // ---------------------------------------------------------------------------

  /** The marks are about this text, and only spaces are dropped. */
  predicate Marked(m: seq<Mark>, s: string) {
    |m| == |s| && forall i :: 0 <= i < |m| ==> m[i].c == s[i] && (m[i].Drop? ==> s[i] == ' ')
  }

  /** A single space between two operator characters. */
  predicate Tight(s: string, p: int) {
    0 < p < |s| - 1 && s[p] == ' ' && IsOperatorChar(s[p - 1]) && IsOperatorChar(s[p + 1])
  }

  predicate DropsTight(m: seq<Mark>, s: string, p: int) {
    Tight(s, p) && p < |m| && m[p].Drop?
  }

  ghost predicate DropsSomeTight(m: seq<Mark>, s: string) {
    exists p :: DropsTight(m, s, p)
  }

  lemma SpaceIsNoOperator()
    ensures !IsOperatorChar(' ')
  {
  }

  /** With single spaces, operators are joined exactly where such a space is dropped. */
  lemma JoinsMeansTight(m: seq<Mark>, s: string)
    requires Marked(m, s) && SingleSpaced(s)
    ensures Joins(OperatorKind, m, false, false) <==> DropsSomeTight(m, s)
  {
    hide Joins;
    SpaceIsNoOperator();
    JoinsMeansBridge(OperatorKind, m);
    if a, b :| Bridge(OperatorKind, m, a, b) {
      assert m[a + 1].Drop? && s[a + 1] == ' ';
      assert s[a + 2] != ' ' && m[a + 2].Keep?;
      assert DropsTight(m, s, a + 1);
    }
    if p :| DropsTight(m, s, p) {
      assert Bridge(OperatorKind, m, p - 1, p + 1);
    }
  }

  // ---------------------------------------------------------------------------
  // What a replacing pass drops
  // ---------------------------------------------------------------------------

  /** The occurrence at q is replaced; the marks are those from j on. */
  predicate Taken(s: string, pattern: string, inside: seq<Mark>, m: seq<Mark>, j: nat, q: int) {
    j <= q && OccursAt(s, pattern, q) && q - j + |pattern| <= |m| && m[q - j..q - j + |pattern|] == inside
  }

  lemma TakenHere(s: string, pattern: string, inside: seq<Mark>, rest: seq<Mark>, j: nat)
    requires OccursAt(s, pattern, j) && |inside| == |pattern|
    ensures Taken(s, pattern, inside, inside + rest, j, j)
  {
    assert (inside + rest)[0..|pattern|] == inside;
  }

  lemma TakenLater(s: string, pattern: string, inside: seq<Mark>, first: seq<Mark>, rest: seq<Mark>, j: nat, q: int)
    requires Taken(s, pattern, inside, rest, j + |first|, q)
    ensures Taken(s, pattern, inside, first + rest, j, q)
  {
    hide OccursAt;
    var k := q - j - |first|;
    assert (first + rest)[q - j..q - j + |pattern|] == rest[k..k + |pattern|];
  }

  /** Every position that is changed, and every occurrence, is met by an occurrence that is replaced. */
  lemma {:induction false} TakenCovers(s: string, pattern: string, inside: seq<Mark>, j: nat, p: nat)
    requires j <= p < |s| && pattern != "" && |inside| == |pattern|
    ensures var m := ReplaceMarks(s, pattern, inside, j);
      && |m| == |s| - j
      && ((m[p - j] == Keep(s[p]) && !OccursAt(s, pattern, p))
          || exists q :: p - |pattern| < q <= p && Taken(s, pattern, inside, m, j, q))
    decreases |s| - j, 0
  {
    hide Taken;
    ReplaceMarksLength(s, pattern, inside, j);
    if OccursAt(s, pattern, j) {
      var k := j + |pattern|;
      var rest := ReplaceMarks(s, pattern, inside, k);
      hide OccursAt;
      if p < k {
        TakenHere(s, pattern, inside, rest, j);
      } else {
        CoversLater(s, pattern, inside, inside, j, k, p);
      }
    } else {
      hide OccursAt;
      if p > j {
        CoversLater(s, pattern, inside, [Keep(s[j])], j, j + 1, p);
      }
    }
  }

  lemma {:induction false} CoversLater(s: string, pattern: string, inside: seq<Mark>, first: seq<Mark>, j: nat, k: nat, p: nat)
    requires j < k <= p < |s| && pattern != "" && |inside| == |pattern| && |first| == k - j
    ensures var m := first + ReplaceMarks(s, pattern, inside, k);
      && |m| == |s| - j
      && ((m[p - j] == Keep(s[p]) && !OccursAt(s, pattern, p))
          || exists q :: p - |pattern| < q <= p && Taken(s, pattern, inside, m, j, q))
    decreases |s| - k, 1
  {
    hide Taken, OccursAt;
    var rest := ReplaceMarks(s, pattern, inside, k);
    TakenCovers(s, pattern, inside, k, p);
    hide ReplaceMarks;
    if q :| p - |pattern| < q <= p && Taken(s, pattern, inside, rest, k, q) {
      TakenLater(s, pattern, inside, first, rest, j, q);
    }
  }

  lemma {:induction false} ReplaceMarksLength(s: string, pattern: string, inside: seq<Mark>, j: nat)
    requires j <= |s| && pattern != "" && |inside| == |pattern|
    ensures |ReplaceMarks(s, pattern, inside, j)| == |s| - j
    decreases |s| - j
  {
    if j < |s| {
      ReplaceMarksLength(s, pattern, inside, if OccursAt(s, pattern, j) then j + |pattern| else j + 1);
    }
  }

  /** Where a position is met by a replaced occurrence, its mark is that of the pattern. */
  lemma TakenMark(s: string, pattern: string, inside: seq<Mark>, m: seq<Mark>, q: int, p: int)
    requires Taken(s, pattern, inside, m, 0, q) && |inside| == |pattern| && q <= p < q + |pattern|
    ensures 0 <= q && p < |s| && p < |m| && m[p] == inside[p - q] && s[p] == pattern[p - q]
  {
    assert m[q..q + |pattern|][p - q] == m[p];
    assert s[q..q + |pattern|][p - q] == s[p];
  }

  lemma ReplaceMarked(s: string, pattern: string, inside: seq<Mark>)
    requires pattern != "" && Marked(inside, pattern)
    ensures Marked(ReplaceMarks(s, pattern, inside, 0), s)
  {
    hide ReplaceMarks, OccursAt, Taken;
    var m := ReplaceMarks(s, pattern, inside, 0);
    ReplaceMarksLength(s, pattern, inside, 0);
    forall p | 0 <= p < |m| ensures m[p].c == s[p] && (m[p].Drop? ==> s[p] == ' ') {
      TakenCovers(s, pattern, inside, 0, p);
      if m[p] != Keep(s[p]) {
        var q :| p - |pattern| < q <= p && Taken(s, pattern, inside, m, 0, q);
        TakenMark(s, pattern, inside, m, q, p);
      }
    }
  }

  /** A dropped position belongs to a replaced occurrence. */
  lemma DropTaken(s: string, pattern: string, inside: seq<Mark>, p: nat) returns (q: int)
    requires pattern != "" && |inside| == |pattern| && p < |s|
    requires |ReplaceMarks(s, pattern, inside, 0)| == |s| && ReplaceMarks(s, pattern, inside, 0)[p].Drop?
    ensures p - |pattern| < q <= p && Taken(s, pattern, inside, ReplaceMarks(s, pattern, inside, 0), 0, q)
  {
    hide ReplaceMarks, OccursAt, Taken;
    TakenCovers(s, pattern, inside, 0, p);
    q :| p - |pattern| < q <= p && Taken(s, pattern, inside, ReplaceMarks(s, pattern, inside, 0), 0, q);
  }

  /** An occurrence is replaced itself, or one that reaches into it is. */
  lemma OccurrenceTaken(s: string, pattern: string, inside: seq<Mark>, i: nat) returns (q: int)
    requires pattern != "" && |inside| == |pattern| && OccursAt(s, pattern, i)
    ensures i - |pattern| < q <= i && Taken(s, pattern, inside, ReplaceMarks(s, pattern, inside, 0), 0, q)
  {
    assert i < |s|;
    hide ReplaceMarks, OccursAt, Taken;
    TakenCovers(s, pattern, inside, 0, i);
    q :| i - |pattern| < q <= i && Taken(s, pattern, inside, ReplaceMarks(s, pattern, inside, 0), 0, q);
  }

  // ---------------------------------------------------------------------------
  // What a pass leaves of a stretch of text
  // ---------------------------------------------------------------------------

  lemma {:induction false} KeptChar(m: seq<Mark>, i: nat)
    requires i < |m| && m[i].Keep?
    ensures m[i].c in Kept(m)
  {
    if i > 0 {
      KeptChar(m[1..], i - 1);
    }
  }

  lemma {:induction false} KeptWhole(m: seq<Mark>, s: string)
    requires Marked(m, s) && forall i :: 0 <= i < |m| ==> m[i].Keep?
    ensures Kept(m) == s
  {
    if m != [] {
      KeptWhole(m[1..], s[1..]);
      assert s == [s[0]] + s[1..];
    }
  }

  /** A stretch in which nothing is dropped is found in what is kept. */
  lemma Survives(m: seq<Mark>, s: string, i: nat, j: nat) returns (k: nat)
    requires Marked(m, s) && i <= j <= |s| && forall p :: i <= p < j ==> m[p].Keep?
    ensures OccursAt(Kept(m), s[i..j], k)
  {
    var before, here, behind := m[..i], m[i..j], m[j..];
    assert m == before + (here + behind);
    KeptConcat(before, here + behind);
    KeptConcat(here, behind);
    KeptWhole(here, s[i..j]);
    k := |Kept(before)|;
    assert Kept(m)[k..k + |s[i..j]|] == s[i..j];
  }

  lemma {:induction false} PrefixOfKept(m: seq<Mark>, w: string) returns (b: nat)
    requires w != "" && w <= Kept(m)
    ensures 0 < b <= |m| && m[b - 1].Keep? && Kept(m[..b]) == w
  {
    if m[0].Drop? {
      assert "" + Kept(m[1..]) == Kept(m[1..]);
      var b' := PrefixOfKept(m[1..], w);
      b := b' + 1;
      assert m[..b][1..] == m[1..][..b'];
      assert "" + w == w;
    } else if |w| == 1 {
      b := 1;
      assert m[..1][1..] == [];
      assert w == [m[0].c] + "";
    } else {
      assert w[1..] <= Kept(m[1..]);
      var b' := PrefixOfKept(m[1..], w[1..]);
      b := b' + 1;
      assert m[..b][1..] == m[1..][..b'];
      assert w == [m[0].c] + w[1..];
    }
  }

  /** What is found in the kept text comes from a stretch of marks that starts and ends with a kept one. */
  lemma {:induction false} StretchOf(m: seq<Mark>, w: string, k: nat) returns (a: nat, b: nat)
    requires w != "" && OccursAt(Kept(m), w, k)
    ensures a < b <= |m| && m[a].Keep? && m[b - 1].Keep? && Kept(m[a..b]) == w
  {
    if m[0].Keep? && k == 0 {
      b := PrefixOfKept(m, w);
      a := 0;
      assert m[0..b] == m[..b];
    } else {
      var k' := if m[0].Keep? then k - 1 else k;
      assert Kept(m)[k..k + |w|] == Kept(m[1..])[k'..k' + |w|];
      var a', b' := StretchOf(m[1..], w, k');
      a, b := a' + 1, b' + 1;
      assert m[a..b] == m[1..][a'..b'];
    }
  }

  lemma {:induction false} KeptIsNoLonger(m: seq<Mark>)
    ensures |Kept(m)| <= |m|
  {
    if m != [] {
      KeptIsNoLonger(m[1..]);
    }
  }

  /** Dropping spaces sets no two spaces side by side. */
  lemma KeepsSingle(m: seq<Mark>, s: string)
    requires Marked(m, s) && SingleSpaced(s)
    ensures SingleSpaced(Kept(m))
  {
    var t := Kept(m);
    forall k | 0 <= k < |t| - 1 ensures t[k] != ' ' || t[k + 1] != ' ' {
      if t[k] == ' ' && t[k + 1] == ' ' {
        assert t[k..k + 2] == "  ";
        var a, b := StretchOf(m, "  ", k);
        TwoSpaces(m, s, a, b);
      }
    }
  }

  lemma TwoSpaces(m: seq<Mark>, s: string, a: nat, b: nat)
    requires Marked(m, s) && a < b <= |m| && m[a].Keep? && Kept(m[a..b]) == "  "
    ensures a + 1 < |s| && s[a] == ' ' && s[a + 1] == ' '
  {
    hide Kept;
    var here := m[a..b];
    KeptIsNoLonger(here);
    KeptChar(here, 0);
    assert here[1] == m[a + 1];
    if here[1].Keep? {
      KeptChar(here, 1);
    }
  }

  /** Only operator characters and spaces. */
  predicate OperatorsAndSpaces(w: string) {
    forall i :: 0 <= i < |w| ==> w[i] == ' ' || IsOperatorChar(w[i])
  }

  /** Such a stretch of the kept text stood in the text itself, if no space that must stay was dropped. */
  lemma WasThere(m: seq<Mark>, s: string, w: string, k: nat) returns (i: nat)
    requires Marked(m, s) && SingleSpaced(s) && !DropsSomeTight(m, s)
    requires w != "" && OperatorsAndSpaces(w) && OccursAt(Kept(m), w, k)
    ensures OccursAt(s, w, i)
  {
    hide Kept, IsOperatorChar;
    var a, b := StretchOf(m, w, k);
    forall p | a <= p < b ensures m[p].Keep? {
      if m[p].Drop? {
        DropInStretch(m, s, w, a, b, p);
      }
    }
    KeptWhole(m[a..b], s[a..b]);
    i := a;
  }

  lemma DropInStretch(m: seq<Mark>, s: string, w: string, a: nat, b: nat, p: nat)
    requires Marked(m, s) && SingleSpaced(s) && OperatorsAndSpaces(w)
    requires a < p < b - 1 && b <= |m| && Kept(m[a..b]) == w && m[p].Drop?
    ensures DropsTight(m, s, p)
  {
    hide Kept, IsOperatorChar;
    var here := m[a..b];
    assert s[p - 1] != ' ' && s[p + 1] != ' ';
    assert here[p - 1 - a] == m[p - 1] && here[p + 1 - a] == m[p + 1];
    KeptChar(here, p - 1 - a);
    KeptChar(here, p + 1 - a);
  }

  // ---------------------------------------------------------------------------
  // A clash stays a clash
  // ---------------------------------------------------------------------------

  predicate IsOperator(op: string) {
    op != "" && forall i :: 0 <= i < |op| ==> IsOperatorChar(op[i])
  }

  /** Where the clash at i starts and ends, the further operator character included. */
  function ClashStart(s: string, i: int): int { if IsOperatorAt(s, i - 1) then i - 1 else i }

  function ClashEnd(s: string, op: string, i: int): int { i + |op| + (if IsOperatorAt(s, i - 1) then 2 else 3) }

  /** The characters of an occurrence. */
  lemma OperatorOccurs(s: string, op: string, i: nat)
    requires OccursAt(s, " " + op + " ", i)
    ensures i + |op| + 2 <= |s| && s[i] == ' ' && s[i + |op| + 1] == ' '
    ensures forall p :: i < p <= i + |op| ==> s[p] == op[p - i - 1]
    ensures IsOperator(op) ==> forall p :: i < p <= i + |op| ==> IsOperatorChar(s[p]) && s[p] != ' '
  {
    SpaceIsNoOperator();
    var w := " " + op + " ";
    assert w[0] == ' ' && w[|op| + 1] == ' ';
    assert s[i..i + |w|][0] == s[i] && s[i..i + |w|][|op| + 1] == s[i + |op| + 1];
    forall p | i < p <= i + |op| ensures s[p] == op[p - i - 1] {
      assert s[i..i + |w|][p - i] == s[p] && w[p - i] == op[p - i - 1];
    }
  }

  lemma ClashText(s: string, op: string, i: int)
    requires ClashAt(s, op, i) && IsOperator(op)
    ensures 0 <= ClashStart(s, i) < ClashEnd(s, op, i) <= |s| && OperatorsAndSpaces(s[ClashStart(s, i)..ClashEnd(s, op, i)])
  {
    hide IsOperatorChar, OccursAt;
    OperatorOccurs(s, op, i);
  }

  /** A clash is one wherever its text stands. */
  lemma ClashMoves(s: string, op: string, i: int, t: string, k: nat)
    requires ClashAt(s, op, i) && ClashEnd(s, op, i) <= |s|
    requires OccursAt(t, s[ClashStart(s, i)..ClashEnd(s, op, i)], k)
    ensures Clashes(t, op)
  {
    hide IsOperatorChar;
    var a, b := ClashStart(s, i), ClashEnd(s, op, i);
    var k' := k + i - a;
    var w := s[a..b];
    assert t[k..k + |w|] == w;
    assert t[k'..k' + |op| + 2] == w[i - a..i - a + |op| + 2] == s[i..i + |op| + 2];
    if IsOperatorAt(s, i - 1) {
      assert t[k'- 1] == w[0] == s[i - 1];
    } else {
      assert t[k' + |op| + 2] == w[|op| + 2] == s[i + |op| + 2];
    }
    assert ClashAt(t, op, k');
  }

  /** The spaces of every clash with this operator are kept. */
  ghost predicate ClashesSpared(m: seq<Mark>, s: string, op: string) {
    forall i :: ClashAt(s, op, i) ==> i + |op| + 1 < |m| && m[i].Keep? && m[i + |op| + 1].Keep?
  }

  lemma {:induction false} ClashesStay(m: seq<Mark>, s: string, op: string)
    requires Marked(m, s) && SingleSpaced(s) && !DropsSomeTight(m, s) && IsOperator(op) && ClashesSpared(m, s, op)
    ensures Clashes(Kept(m), op) <==> Clashes(s, op)
  {
    hide Kept, ClashAt, DropsSomeTight, SingleSpaced, IsOperator, ClashStart, ClashEnd, OccursAt;
    if i :| ClashAt(s, op, i) {
      ClashText(s, op, i);
      ClashKept(m, s, op, i);
      var k := Survives(m, s, ClashStart(s, i), ClashEnd(s, op, i));
      ClashMoves(s, op, i, Kept(m), k);
    }
    var t := Kept(m);
    if i :| ClashAt(t, op, i) {
      ClashText(t, op, i);
      ClashHere(t, op, i);
      var k := WasThere(m, s, t[ClashStart(t, i)..ClashEnd(t, op, i)], ClashStart(t, i));
      ClashMoves(t, op, i, s, k);
    }
  }

  lemma ClashHere(t: string, op: string, i: int)
    requires 0 <= ClashStart(t, i) < ClashEnd(t, op, i) <= |t|
    ensures OccursAt(t, t[ClashStart(t, i)..ClashEnd(t, op, i)], ClashStart(t, i))
  {
  }

  lemma ClashKept(m: seq<Mark>, s: string, op: string, i: int)
    requires Marked(m, s) && IsOperator(op) && ClashesSpared(m, s, op) && ClashAt(s, op, i)
    requires 0 <= ClashStart(s, i) < ClashEnd(s, op, i) <= |s|
    ensures forall p :: ClashStart(s, i) <= p < ClashEnd(s, op, i) ==> m[p].Keep?
  {
    hide OccursAt;
    OperatorOccurs(s, op, i);
    SpaceIsNoOperator();
    hide IsOperatorChar;
  }

  // ---------------------------------------------------------------------------
  // The pass over one operator
  // ---------------------------------------------------------------------------

  lemma SpacedMarked(op: string)
    ensures Marked(SpacedMarks(op), " " + op + " ")
    ensures |SpacedMarks(op)| == |op| + 2 && SpacedMarks(op)[0].Drop? && SpacedMarks(op)[|op| + 1].Drop?
    ensures forall i :: 0 < i <= |op| ==> SpacedMarks(op)[i].Keep?
  {
    AllKept(op);
  }

  function OperatorMarks(s: string, op: string): seq<Mark> {
    ReplaceMarks(s, " " + op + " ", SpacedMarks(op), 0)
  }

  /** A replaced occurrence loses both its spaces. */
  lemma TakenDropsBoth(s: string, op: string, q: int)
    requires Taken(s, " " + op + " ", SpacedMarks(op), OperatorMarks(s, op), 0, q)
    ensures 0 <= q && q + |op| + 1 < |OperatorMarks(s, op)|
    ensures OperatorMarks(s, op)[q].Drop? && OperatorMarks(s, op)[q + |op| + 1].Drop?
    ensures forall p :: q < p <= q + |op| ==> OperatorMarks(s, op)[p].Keep?
  {
    hide OperatorMarks, SpacedMarks;
    SpacedMarked(op);
    var m := OperatorMarks(s, op);
    assert forall p :: q <= p <= q + |op| + 1 ==> m[p] == m[q..q + |op| + 2][p - q];
  }

  /** A dropped space is the first or the last of an occurrence that loses both. */
  lemma DropOfOperator(s: string, op: string, p: nat) returns (q: nat)
    requires |OperatorMarks(s, op)| == |s| && p < |s| && OperatorMarks(s, op)[p].Drop?
    ensures OccursAt(s, " " + op + " ", q) && (p == q || p == q + |op| + 1)
    ensures q + |op| + 1 < |s| && OperatorMarks(s, op)[q].Drop? && OperatorMarks(s, op)[q + |op| + 1].Drop?
  {
    hide SpacedMarks, OccursAt;
    SpacedMarked(op);
    q := DropTaken(s, " " + op + " ", SpacedMarks(op), p);
    hide OperatorMarks;
    TakenDropsBoth(s, op, q);
  }

  /** Of two occurrences that share their first or their last space both spaces are the same. */
  lemma SharedSpaces(s: string, op: string, i: nat, op': string, q: nat)
    requires OccursAt(s, " " + op + " ", i) && OccursAt(s, " " + op' + " ", q) && IsOperator(op) && IsOperator(op')
    requires i == q || i + |op| == q + |op'|
    ensures i == q && |op| == |op'|
  {
    hide OccursAt, IsOperatorChar;
    OperatorOccurs(s, op, i);
    OperatorOccurs(s, op', q);
    SpaceIsNoOperator();
  }

  /** The last space of one occurrence is the first of another: it must stay. */
  lemma MeetingSpace(s: string, op: string, i: nat, op': string)
    requires OccursAt(s, " " + op + " ", i) && OccursAt(s, " " + op' + " ", i + |op| + 1) && IsOperator(op) && IsOperator(op')
    ensures Tight(s, i + |op| + 1)
  {
    hide OccursAt, IsOperatorChar;
    OperatorOccurs(s, op, i);
    OperatorOccurs(s, op', i + |op| + 1);
  }

  /** If the pass over op drops one space of an occurrence of op', it drops both, or one that must stay. */
  lemma BothDropped(s: string, op: string, op': string, i: nat, p: nat)
    requires |OperatorMarks(s, op)| == |s| && IsOperator(op) && IsOperator(op')
    requires OccursAt(s, " " + op' + " ", i) && (p == i || p == i + |op'| + 1) && p < |s| && OperatorMarks(s, op)[p].Drop?
    ensures DropsSomeTight(OperatorMarks(s, op), s) ||
      (i + |op'| + 1 < |s| && OperatorMarks(s, op)[i].Drop? && OperatorMarks(s, op)[i + |op'| + 1].Drop?)
  {
    hide OccursAt, OperatorMarks, IsOperator, Tight;
    var q := DropOfOperator(s, op, p);
    if p == i && p == q + |op| + 1 {
      MeetingSpace(s, op, q, op');
      assert DropsTight(OperatorMarks(s, op), s, p);
    } else if p == i + |op'| + 1 && p == q {
      MeetingSpace(s, op', i, op);
      assert DropsTight(OperatorMarks(s, op), s, p);
    } else {
      SharedSpaces(s, op', i, op, q);
    }
  }

  /** A clash has a space that must stay. */
  lemma ClashIsTight(s: string, op: string, i: int)
    requires ClashAt(s, op, i) && IsOperator(op)
    ensures Tight(s, i) || Tight(s, i + |op| + 1)
    ensures IsOperatorAt(s, i - 1) ==> Tight(s, i)
  {
    hide OccursAt, IsOperatorChar;
    OperatorOccurs(s, op, i);
  }

  lemma OperatorPassSpares(s: string, op: string, op': string)
    requires Marked(OperatorMarks(s, op), s) && !DropsSomeTight(OperatorMarks(s, op), s) && IsOperator(op) && IsOperator(op')
    ensures ClashesSpared(OperatorMarks(s, op), s, op')
  {
    hide OperatorMarks, IsOperator, OccursAt, Tight;
    var m := OperatorMarks(s, op);
    forall i | ClashAt(s, op', i) ensures i + |op'| + 1 < |m| && m[i].Keep? && m[i + |op'| + 1].Keep? {
      OperatorOccurs(s, op', i);
      if m[i].Drop? {
        ClashLoses(s, op, op', i, i);
      } else if m[i + |op'| + 1].Drop? {
        ClashLoses(s, op, op', i, i + |op'| + 1);
      }
    }
  }

  lemma ClashLoses(s: string, op: string, op': string, i: int, p: nat)
    requires |OperatorMarks(s, op)| == |s| && IsOperator(op) && IsOperator(op')
    requires ClashAt(s, op', i) && (p == i || p == i + |op'| + 1) && p < |s| && OperatorMarks(s, op)[p].Drop?
    ensures DropsSomeTight(OperatorMarks(s, op), s)
  {
    hide OperatorMarks, IsOperator, OccursAt, Tight;
    ClashIsTight(s, op', i);
    BothDropped(s, op, op', i, p);
    var m, e := OperatorMarks(s, op), i + |op'| + 1;
    if e < |s| && m[i].Drop? && m[e].Drop? {
      assert DropsTight(m, s, i) || DropsTight(m, s, e);
    }
  }

  /** The pass drops a space that must stay exactly when its operator clashes. */
  lemma {:induction false} OperatorPassJoinsIff(s: string, op: string)
    requires IsOperator(op) && Marked(OperatorMarks(s, op), s)
    ensures DropsSomeTight(OperatorMarks(s, op), s) <==> Clashes(s, op)
  {
    hide OperatorMarks, IsOperator, OccursAt;
    var m := OperatorMarks(s, op);
    if p :| DropsTight(m, s, p) {
      var q := DropOfOperator(s, op, p);
      OperatorOccurs(s, op, q);
      assert ClashAt(s, op, q);
    }
    if i :| ClashAt(s, op, i) {
      ClashDropped(s, op, i);
    }
  }

  lemma ClashDropped(s: string, op: string, i: int)
    requires IsOperator(op) && Marked(OperatorMarks(s, op), s) && ClashAt(s, op, i)
    ensures DropsSomeTight(OperatorMarks(s, op), s)
  {
    hide OperatorMarks, IsOperator, OccursAt, Tight, Marked;
    var m := OperatorMarks(s, op);
    OperatorOccurs(s, op, i);
    SpacedMarked(op);
    ClashIsTight(s, op, i);
    var q := FirstTaken(s, op, i);
    TakenDropsBoth(s, op, q);
    if q == i {
      assert DropsTight(m, s, i) || DropsTight(m, s, i + |op| + 1);
    } else {
      MeetsBefore(s, op, i, q);
      MeetingSpace(s, op, q, op);
      assert DropsTight(m, s, i);
    }
  }

  lemma FirstTaken(s: string, op: string, i: nat) returns (q: int)
    requires OccursAt(s, " " + op + " ", i)
    ensures i - |op| - 2 < q <= i && Taken(s, " " + op + " ", SpacedMarks(op), OperatorMarks(s, op), 0, q)
  {
    SpacedMarked(op);
    q := OccurrenceTaken(s, " " + op + " ", SpacedMarks(op), i);
  }

  /** Occurrences overlap only in a space. */
  lemma MeetsBefore(s: string, op: string, i: nat, q: int)
    requires IsOperator(op) && OccursAt(s, " " + op + " ", i) && 0 <= q && OccursAt(s, " " + op + " ", q) && q < i <= q + |op| + 1
    ensures i == q + |op| + 1
  {
    hide OccursAt, IsOperatorChar;
    OperatorOccurs(s, op, i);
    OperatorOccurs(s, op, q);
    SpaceIsNoOperator();
  }

  // ---------------------------------------------------------------------------
  // The other passes over a line
  // ---------------------------------------------------------------------------

  function CommaPass(s: string): seq<Mark> { ReplaceMarks(s, ", ", CommaMarks(), 0) }

  lemma CommaMarked()
    ensures Marked(CommaMarks(), ", ")
  {
  }

  lemma IfMarked()
    ensures Marked(IfMarks(), "if (")
  {
  }

  lemma CommaOccurs(s: string, i: nat)
    ensures OccursAt(s, ", ", i) <==> i + 2 <= |s| && s[i] == ',' && s[i + 1] == ' '
  {
    if i + 2 <= |s| {
      assert s[i..i + 2] == [s[i], s[i + 1]];
    }
  }

  /** Exactly the spaces behind commas are dropped. */
  lemma CommaDrops(s: string, p: nat)
    requires p < |s|
    ensures |CommaPass(s)| == |s|
    ensures CommaPass(s)[p].Drop? <==> p > 0 && s[p - 1] == ',' && s[p] == ' '
  {
    hide ReplaceMarks, OccursAt, Taken;
    ReplaceMarksLength(s, ", ", CommaMarks(), 0);
    CommaTaken(s, p);
    if p > 0 {
      CommaTaken(s, p - 1);
      CommaOccurs(s, p - 1);
    }
  }

  /** What stands at p: part of an occurrence, or not the start of one. */
  lemma CommaTaken(s: string, p: nat)
    requires p < |s| && |CommaPass(s)| == |s|
    ensures CommaPass(s)[p].Drop? ==> p > 0 && s[p - 1] == ',' && s[p] == ' '
    ensures OccursAt(s, ", ", p) ==> p + 1 < |s| && CommaPass(s)[p + 1].Drop?
  {
    hide ReplaceMarks, Taken;
    var m := CommaPass(s);
    TakenCovers(s, ", ", CommaMarks(), 0, p);
    CommaOccurs(s, p);
    if q :| p - 2 < q <= p && Taken(s, ", ", CommaMarks(), m, 0, q) {
      TakenMark(s, ", ", CommaMarks(), m, q, q);
      TakenMark(s, ", ", CommaMarks(), m, q, q + 1);
    }
  }

  /** The pass drops a space that must stay exactly when a comma clashes. */
  lemma CommaPassJoinsIff(s: string)
    ensures DropsSomeTight(CommaPass(s), s) <==> exists i :: CommaClashAt(s, i)
  {
    hide CommaPass, OccursAt;
    if p :| DropsTight(CommaPass(s), s, p) {
      CommaDrops(s, p);
      CommaOccurs(s, p - 1);
      assert CommaClashAt(s, p - 1);
    }
    if i :| CommaClashAt(s, i) {
      CommaOccurs(s, i);
      CommaDrops(s, i + 1);
      CommaIsOperator();
      assert DropsTight(CommaPass(s), s, i + 1);
    }
  }

  lemma CommaIsOperator()
    ensures IsOperatorChar(',')
  {
  }

  lemma CommaPassSpares(s: string, op: string)
    requires !DropsSomeTight(CommaPass(s), s) && IsOperator(op) && ',' !in op
    ensures ClashesSpared(CommaPass(s), s, op)
  {
    hide CommaPass, OccursAt, IsOperatorChar;
    var m := CommaPass(s);
    forall i | ClashAt(s, op, i) ensures i + |op| + 1 < |m| && m[i].Keep? && m[i + |op| + 1].Keep? {
      OperatorOccurs(s, op, i);
      CommaDrops(s, i);
      CommaDrops(s, i + |op| + 1);
      CommaIsOperator();
      assert s[i + |op|] == op[|op| - 1] && s[i + 1] == op[0];
      assert m[i].Drop? ==> DropsTight(m, s, i);
    }
  }

  /** Behind "if" no operator is joined. */
  lemma IfPassNeverJoins(s: string)
    ensures !DropsSomeTight(ReplaceMarks(s, "if (", IfMarks(), 0), s)
  {
    hide ReplaceMarks, OccursAt, Taken;
    var m := ReplaceMarks(s, "if (", IfMarks(), 0);
    ReplaceMarksLength(s, "if (", IfMarks(), 0);
    forall p ensures !DropsTight(m, s, p) {
      if 0 <= p < |s| && m[p].Drop? {
        var q := DropTaken(s, "if (", IfMarks(), p);
        TakenMark(s, "if (", IfMarks(), m, q, p);
        TakenMark(s, "if (", IfMarks(), m, q, q + 1);
        assert p == q + 2 && s[p - 1] == 'f';
      }
    }
  }

  // ---------------------------------------------------------------------------
  // A line
  // ---------------------------------------------------------------------------

  /** One pass over a line: it joins operators exactly when it drops a space that must stay. */
  lemma PassOverLine(s: string, pattern: string, inside: seq<Mark>, replacement: string)
    requires SingleSpaced(s) && pattern != "" && Marked(inside, pattern) && Makes(inside, pattern, replacement)
    ensures Marked(ReplaceMarks(s, pattern, inside, 0), s)
    ensures ReplaceJoins(OperatorKind, s, pattern, inside) <==> DropsSomeTight(ReplaceMarks(s, pattern, inside, 0), s)
    ensures Kept(ReplaceMarks(s, pattern, inside, 0)) == ReplaceAll(s, pattern, replacement, 0)
    ensures SingleSpaced(ReplaceAll(s, pattern, replacement, 0))
  {
    hide ReplaceMarks, ReplaceAll, Marked, SingleSpaced, DropsSomeTight, Joins, Kept, Full;
    var m := ReplaceMarks(s, pattern, inside, 0);
    ReplaceMarked(s, pattern, inside);
    JoinsMeansTight(m, s);
    ReplaceMakes(s, pattern, replacement, inside, 0);
    KeepsSingle(m, s);
  }

  predicate AreOperators(operators: seq<string>) {
    forall k :: 0 <= k < |operators| ==> IsOperator(operators[k]) && ',' !in operators[k]
  }

  lemma TableOfOperators()
    ensures AreOperators(OPERATORS)
  {
    hide IsOperator;
    forall k | 0 <= k < |OPERATORS| ensures IsOperator(OPERATORS[k]) && ',' !in OPERATORS[k] {
      var op := OPERATORS[k];
      assert |op| <= 2 && op != "" && IsMark(op[0]) && IsMark(op[|op| - 1]);
      MarksAreOperators(op);
    }
  }

  /** The characters operators consist of. */
  predicate IsMark(c: char) {
    c in {'?', ':', '=', '!', '>', '<', '+', '-', '|', '&', '*', '^', '/'}
  }

  lemma MarksAreOperators(op: string)
    requires 0 < |op| <= 2 && IsMark(op[0]) && IsMark(op[|op| - 1])
    ensures IsOperator(op) && ',' !in op
  {
  }

  /** The same operators clash in both texts. */
  ghost predicate SameClashes(s: string, t: string, operators: seq<string>) {
    forall k :: 0 <= k < |operators| ==> (Clashes(s, operators[k]) <==> Clashes(t, operators[k]))
  }

  lemma OnePass(s: string, operators: seq<string>, k: nat)
    requires SingleSpaced(s) && AreOperators(operators) && k < |operators|
    ensures ReplaceJoins(OperatorKind, s, " " + operators[k] + " ", SpacedMarks(operators[k])) <==> Clashes(s, operators[k])
    ensures SingleSpaced(ReplaceAll(s, " " + operators[k] + " ", operators[k], 0))
    ensures !Clashes(s, operators[k]) ==> SameClashes(s, ReplaceAll(s, " " + operators[k] + " ", operators[k], 0), operators)
  {
    hide ReplaceAll, ReplaceJoins, SingleSpaced, Marked, Makes, IsOperator, Clashes, DropsSomeTight, SpacedMarks, ReplaceMarks, ClashesSpared;
    var op := operators[k];
    SpacedMarked(op);
    SpacedMakes(op);
    PassOverLine(s, " " + op + " ", SpacedMarks(op), op);
    assert Marked(OperatorMarks(s, op), s);
    OperatorPassJoinsIff(s, op);
    if !Clashes(s, op) {
      forall j | 0 <= j < |operators| ensures Clashes(s, operators[j]) <==> Clashes(Kept(OperatorMarks(s, op)), operators[j]) {
        OperatorPassSpares(s, op, operators[j]);
        ClashesStay(OperatorMarks(s, op), s, operators[j]);
      }
    }
  }

  lemma CommaFirst(s: string, operators: seq<string>)
    requires SingleSpaced(s) && AreOperators(operators)
    ensures ReplaceJoins(OperatorKind, s, ", ", CommaMarks()) <==> exists i :: CommaClashAt(s, i)
    ensures SingleSpaced(ReplaceAll(s, ", ", ",", 0))
    ensures (exists i :: CommaClashAt(s, i)) || SameClashes(s, ReplaceAll(s, ", ", ",", 0), operators)
  {
    hide ReplaceAll, ReplaceJoins, SingleSpaced, Marked, Makes, IsOperator, Clashes, DropsSomeTight, CommaMarks, ReplaceMarks, ClashesSpared, CommaClashAt;
    CommaMarked();
    CommaMakes();
    PassOverLine(s, ", ", CommaMarks(), ",");
    assert Marked(CommaPass(s), s);
    CommaPassJoinsIff(s);
    if !DropsSomeTight(CommaPass(s), s) {
      forall j | 0 <= j < |operators| ensures Clashes(s, operators[j]) <==> Clashes(Kept(CommaPass(s)), operators[j]) {
        CommaPassSpares(s, operators[j]);
        ClashesStay(CommaPass(s), s, operators[j]);
      }
    }
  }

  lemma IfNeverJoins(s: string)
    requires SingleSpaced(s)
    ensures !ReplaceJoins(OperatorKind, s, "if (", IfMarks())
  {
    hide ReplaceJoins, ReplaceMarks, SingleSpaced, Marked, Makes, IfMarks;
    IfMarked();
    IfMakes();
    PassOverLine(s, "if (", IfMarks(), "if(");
    IfPassNeverJoins(s);
  }

  ghost predicate SomeClash(line: string, operators: seq<string>, k: nat) {
    exists j :: 0 <= j < k && j < |operators| && Clashes(line, operators[j])
  }

  /** The passes over the first k operators join operators exactly when one of these clashes in the line they start from. */
  lemma {:induction false} TightenJoinsIff(line: string, operators: seq<string>, k: nat)
    requires SingleSpaced(line) && AreOperators(operators) && k <= |operators|
    ensures TightenJoins(OperatorKind, line, operators, k) <==> SomeClash(line, operators, k)
    ensures SingleSpaced(Tighten(line, operators, k))
    ensures SomeClash(line, operators, k) || SameClashes(line, Tighten(line, operators, k), operators)
  {
    if k > 0 {
      hide ReplaceAll, ReplaceJoins, SingleSpaced, AreOperators, Clashes, SpacedMarks;
      var t := Tighten(line, operators, k - 1);
      TightenJoinsIff(line, operators, k - 1);
      OnePass(t, operators, k - 1);
      assert SomeClash(line, operators, k) <==> SomeClash(line, operators, k - 1) || Clashes(line, operators[k - 1]);
    }
  }

  /** Some pass over a line joins operators exactly when the line has a clash. */
  lemma {:induction false} LineJoinsIff(line: string)
    requires SingleSpaced(line)
    ensures LineJoins(OperatorKind, line) <==> LineClashes(line)
  {
    hide ReplaceAll, ReplaceJoins, TightenJoins, Tighten, SingleSpaced, AreOperators, Clashes, CommaMarks, IfMarks, CommaClashAt;
    TableOfOperators();
    var l1 := ReplaceAll(line, ", ", ",", 0);
    CommaFirst(line, OPERATORS);
    TightenJoinsIff(l1, OPERATORS, |OPERATORS|);
    IfNeverJoins(Tighten(l1, OPERATORS, |OPERATORS|));
  }

  /**
   The treatment of a line keeps its operators if and only if the line is a directive or has no
   clash: no operator between single spaces and no comma with a space has a further operator
   character beyond the space. Lines with two spaces in a row do not get here.
   */
  lemma LineKeepsOperatorsIff(line: string)
    requires SingleSpaced(line)
    ensures Operators(MinifyLine(line)) == Operators(line) <==> !LineClashes(line)
  {
    hide Tokens, LineJoins, LineClashes, MinifyLine, SingleSpaced;
    KindsAreApt();
    LineKeepsIff(OperatorKind, line);
    LineJoinsIff(line);
  }

  // ---------------------------------------------------------------------------
  // The whole minifier
  // ---------------------------------------------------------------------------

  lemma {:induction false} RunsSingle(s: string, i: nat)
    requires i <= |s|
    ensures SingleSpaced(Runs(s, ' ', i)) && (i < |s| ==> Runs(s, ' ', i) != "" && Runs(s, ' ', i)[0] == s[i])
    ensures i == |s| ==> Runs(s, ' ', i) == ""
    decreases |s| - i
  {
    if i < |s| {
      if s[i] == ' ' && i + 1 < |s| && s[i + 1] == ' ' {
        RunStops(s, i, ' ');
        RunsSingle(s, RunEnd(s, i, ' '));
      } else {
        RunsSingle(s, i + 1);
      }
    }
  }

  lemma {:induction false} RunStops(s: string, i: nat, c: char)
    requires i <= |s|
    ensures RunEnd(s, i, c) < |s| ==> s[RunEnd(s, i, c)] != c
    decreases |s| - i
  {
    if i < |s| && s[i] == c {
      RunStops(s, i + 1, c);
    }
  }

  ghost predicate AllSingle(lines: seq<string>) {
    forall i :: 0 <= i < |lines| ==> SingleSpaced(lines[i])
  }

  lemma {:induction false} SplitSingle(s: string)
    requires SingleSpaced(s)
    ensures AllSingle(Split(s)) && Split(s)[0] <= s
  {
    if s != "" {
      SplitSingle(s[1..]);
      var rest := Split(s[1..]);
      assert rest[0] != "" ==> rest[0][0] == s[1];
    }
  }

  ghost predicate SomeLineClashes(lines: seq<string>) {
    exists i :: 0 <= i < |lines| && LineClashes(lines[i])
  }

  lemma {:induction false} LinesJoinIff(lines: seq<string>)
    requires AllSingle(lines)
    ensures LinesJoin(OperatorKind, lines) <==> SomeLineClashes(lines)
  {
    if lines != [] {
      hide LineJoins, LineClashes, SingleSpaced;
      LineJoinsIff(lines[0]);
      LinesJoinIff(lines[1..]);
      if i :| 0 <= i < |lines| && LineClashes(lines[i]) {
        assert i > 0 ==> lines[1..][i - 1] == lines[i];
      }
      if i :| 0 <= i < |lines[1..]| && LineClashes(lines[1..][i]) {
        assert lines[i + 1] == lines[1..][i];
      }
    }
  }

  /** A '#' at a line start with whitespace behind it and then an operator character. */
  predicate HashBeforeOperatorAt(s: string, i: int) {
    && 0 <= i < |s| && AtLineStart(s, i) && s[i] == '#'
    && i + 1 < SpaceEnd(s, i + 1) && IsOperatorAt(s, SpaceEnd(s, i + 1))
  }

  lemma OperatorHashJoins(s: string, i: int)
    ensures HashBeforeOperatorAt(s, i) <==> HashJoinsAt(OperatorKind, s, i)
  {
    hide IsSpace, IsWord, IsLineEnd;
    if 0 <= i < |s| {
      var j := SpaceEnd(s, i + 1);
      SpaceRun(s, i + 1);
      if i + 1 < j {
        assert s[i + 1..j][0] == s[i + 1];
        assert HasBetween(OperatorKind, s, i + 1, j);
      }
    }
  }

  lemma HashIsOperator()
    ensures IgnoresSpaces(OperatorKind) && OperatorKind('#').Inside?
  {
  }

  /**
   The minifier keeps the operators of the comment-stripped text if and only if no '#' at a line
   start loses the whitespace before an operator character, and no line of the text, its whitespace
   reduced, has a clash.
   */
  lemma {:induction false} MinifyKeepsOperatorsIff(input: string)
    ensures Operators(Minify(input)) == Operators(Stripped(input)) <==>
      && (!exists i :: HashBeforeOperatorAt(Stripped(input), i))
      && (!exists i :: 0 <= i < |Split(Compact(Stripped(input)))| && LineClashes(Split(Compact(Stripped(input)))[i]))
  {
    hide Tokens, Joins, MacroMarks, LinesJoin, CompactJoins, Stripped, Split, Minify, Apt, LineEndsBetween, HashBeforeOperatorAt,
         HashJoinsAt, LineClashes, IgnoresSpaces, SingleSpaced, MacroSpaces, Runs, LeadingSpaces, Compact;
    var text := Stripped(input);
    KindsAreApt();
    KindsEndLines();
    HashIsOperator();
    MinifyKeepsIff(OperatorKind, input);
    CompactJoinsAtDirectives(OperatorKind, text);
    DirectivesJoinIff(OperatorKind, text);
    forall i ensures HashBeforeOperatorAt(text, i) <==> HashJoinsAt(OperatorKind, text, i) {
      OperatorHashJoins(text, i);
    }
    CompactSingle(text);
    SplitSingle(Compact(text));
    LinesJoinIff(Split(Compact(text)));
  }

  lemma CompactSingle(text: string)
    ensures SingleSpaced(Compact(text))
  {
    hide Runs, SingleSpaced;
    RunsSingle(LeadingSpaces(Runs(MacroSpaces(text, 0), '\n', 0), 0), 0);
  }
}
