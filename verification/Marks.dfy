/**
 Texts whose characters are marked as kept or dropped, and exactly when dropping keeps the tokens.
 A classification says which characters make up tokens, which end them, and which do neither.

 Dropping characters outside tokens can only join neighbouring tokens, so there are either the same
 tokens as before or fewer. They are joined where two token characters have nothing between them
 but what was dropped, and something that ended the first token is among it.
 */
module Marks {

  datatype Kind = Inside | Between | Ignored

  type Classes = char -> Kind

  function Flush(token: string): seq<string> {
    if token == "" then [] else [token]
  }

  /** The tokens of a text, in order; `token` is the one being read. */
  function Tokens(kinds: Classes, s: string, token: string): seq<string> {
    if s == "" then Flush(token)
    else
      match kinds(s[0])
      case Inside => Tokens(kinds, s[1..], token + [s[0]])
      case Between => Flush(token) + Tokens(kinds, s[1..], "")
      case Ignored => Tokens(kinds, s[1..], token)
  }

  datatype Mark = Keep(c: char) | Drop(c: char)

  function Full(m: seq<Mark>): string {
    if m == [] then "" else [m[0].c] + Full(m[1..])
  }

  function Kept(m: seq<Mark>): string {
    if m == [] then "" else (if m[0].Keep? then [m[0].c] else "") + Kept(m[1..])
  }

  /**
   Two tokens become one: between two kept token characters, all that ended the first was dropped.
   `reading`: the last character that was not ignored is a kept token character; `gap`: something
   that ends tokens was dropped since.
   */
  predicate Joins(kinds: Classes, m: seq<Mark>, reading: bool, gap: bool) {
    if m == [] then false
    else
      match kinds(m[0].c)
      case Inside => (reading && gap) || Joins(kinds, m[1..], true, false)
      case Between => if m[0].Keep? then Joins(kinds, m[1..], false, false) else Joins(kinds, m[1..], reading, true)
      case Ignored => Joins(kinds, m[1..], reading, gap)
  }

  /** Only characters outside tokens are dropped. */
  predicate DropsNoToken(kinds: Classes, m: seq<Mark>) {
    forall i :: 0 <= i < |m| && m[i].Drop? ==> !kinds(m[i].c).Inside?
  }

  lemma TokensCons(kinds: Classes, c: char, t: string, token: string)
    ensures Tokens(kinds, [c] + t, token) ==
      match kinds(c)
      case Inside => Tokens(kinds, t, token + [c])
      case Between => Flush(token) + Tokens(kinds, t, "")
      case Ignored => Tokens(kinds, t, token)
  {
    assert ([c] + t)[1..] == t;
  }

  /** How many tokens there are depends on the one being read only through its being there. */
  lemma {:induction false} CountOfReading(kinds: Classes, s: string, a: string, b: string)
    requires a != "" && b != ""
    ensures |Tokens(kinds, s, a)| == |Tokens(kinds, s, b)|
  {
    if s != "" {
      CountOfReading(kinds, s[1..], a + [s[0]], b + [s[0]]);
      CountOfReading(kinds, s[1..], a, b);
    }
  }

  /** Dropping joins tokens exactly when it changes them, and then there are fewer. */
  ghost predicate Settled(joins: bool, kept: seq<string>, full: seq<string>) {
    if joins then |kept| < |full| else kept == full
  }

  lemma SettledAfter(joins: bool, kept: seq<string>, full: seq<string>, before: seq<string>)
    requires Settled(joins, kept, full)
    ensures Settled(joins, before + kept, before + full)
  {
  }

  /** While nothing was dropped since the token being read. */
  lemma {:induction false} NoGap(kinds: Classes, m: seq<Mark>, token: string)
    requires DropsNoToken(kinds, m)
    ensures Settled(Joins(kinds, m, token != "", false), Tokens(kinds, Kept(m), token), Tokens(kinds, Full(m), token))
    decreases |m|, 1
  {
    hide Settled, Tokens;
    if m == [] {
      EmptySettled(kinds, token);
    } else {
      var c, rest := m[0].c, m[1..];
      TokensCons(kinds, c, Full(rest), token);
      TokensCons(kinds, c, Kept(rest), token);
      assert "" + Kept(rest) == Kept(rest);
      match kinds(c) {
        case Inside => NoGap(kinds, rest, token + [c]);
        case Ignored => NoGap(kinds, rest, token);
        case Between =>
          if m[0].Keep? {
            NoGap(kinds, rest, "");
            SettledAfter(Joins(kinds, rest, false, false), Tokens(kinds, Kept(rest), ""), Tokens(kinds, Full(rest), ""), Flush(token));
          } else {
            DroppedBetween(kinds, m, token);
          }
      }
    }
  }

  lemma EmptySettled(kinds: Classes, token: string)
    ensures Settled(false, Tokens(kinds, "", token), Tokens(kinds, "", token))
  {
  }

  lemma {:induction false} DroppedBetween(kinds: Classes, m: seq<Mark>, token: string)
    requires DropsNoToken(kinds, m) && m != [] && m[0].Drop? && kinds(m[0].c).Between?
    ensures Settled(Joins(kinds, m, token != "", false), Tokens(kinds, Kept(m), token), Tokens(kinds, Full(m), token))
    decreases |m|, 0
  {
    hide Settled, Tokens;
    var rest := m[1..];
    TokensCons(kinds, m[0].c, Full(rest), token);
    assert "" + Kept(rest) == Kept(rest);
    if token == "" {
      NoReadingNoGap(kinds, rest);
      NoGap(kinds, rest, "");
      assert Flush("") + Tokens(kinds, Full(rest), "") == Tokens(kinds, Full(rest), "");
    } else {
      AfterGap(kinds, rest, token);
    }
  }

  /** A gap matters only behind a token character. */
  lemma {:induction false} NoReadingNoGap(kinds: Classes, m: seq<Mark>)
    ensures Joins(kinds, m, false, true) == Joins(kinds, m, false, false)
  {
    if m != [] {
      NoReadingNoGap(kinds, m[1..]);
    }
  }

  /** Once what ended the token being read was dropped. */
  lemma {:induction false} AfterGap(kinds: Classes, m: seq<Mark>, token: string)
    requires DropsNoToken(kinds, m) && token != ""
    ensures Settled(Joins(kinds, m, true, true), Tokens(kinds, Kept(m), token), [token] + Tokens(kinds, Full(m), ""))
    decreases |m|, 1
  {
    hide Settled, Tokens;
    if m == [] {
      EmptyAfterGap(kinds, token);
    } else {
      var c, rest := m[0].c, m[1..];
      TokensCons(kinds, c, Full(rest), "");
      TokensCons(kinds, c, Kept(rest), token);
      assert "" + Kept(rest) == Kept(rest);
      assert Flush("") + Tokens(kinds, Full(rest), "") == Tokens(kinds, Full(rest), "");
      match kinds(c) {
        case Inside => JoinedHere(kinds, rest, token, c);
        case Ignored => AfterGap(kinds, rest, token);
        case Between =>
          if m[0].Keep? {
            NoGap(kinds, rest, "");
            SettledAfter(Joins(kinds, rest, false, false), Tokens(kinds, Kept(rest), ""), Tokens(kinds, Full(rest), ""), [token]);
          } else {
            AfterGap(kinds, rest, token);
          }
      }
    }
  }

  lemma EmptyAfterGap(kinds: Classes, token: string)
    requires token != ""
    ensures Settled(false, Tokens(kinds, "", token), [token] + Tokens(kinds, "", ""))
  {
  }

  /** A token character joins the one before the gap: one token fewer from here on. */
  lemma {:induction false} JoinedHere(kinds: Classes, rest: seq<Mark>, token: string, c: char)
    requires DropsNoToken(kinds, rest) && token != ""
    ensures Settled(true, Tokens(kinds, Kept(rest), token + [c]), [token] + Tokens(kinds, Full(rest), "" + [c]))
    decreases |rest|, 2
  {
    NoGap(kinds, rest, [c]);
    CountOfReading(kinds, Kept(rest), token + [c], [c]);
    assert "" + [c] == [c];
  }

  /** Dropping keeps the tokens if and only if it joins none; otherwise there are fewer. */
  lemma {:induction false} DroppingKeepsTokens(kinds: Classes, m: seq<Mark>)
    requires DropsNoToken(kinds, m)
    ensures Settled(Joins(kinds, m, false, false), Tokens(kinds, Kept(m), ""), Tokens(kinds, Full(m), ""))
  {
    NoGap(kinds, m, "");
  }

  // ---------------------------------------------------------------------------
  // Composing passes
  // ---------------------------------------------------------------------------

  /** Two passes after one another change the tokens exactly when one of them does. */
  lemma SettledTwice(first: bool, second: bool, a: seq<string>, b: seq<string>, c: seq<string>)
    requires Settled(first, b, a) && Settled(second, c, b)
    ensures Settled(first || second, c, a)
  {
  }

  /** So do two passes side by side. */
  lemma SettledBeside(left: bool, right: bool, a: seq<string>, b: seq<string>, c: seq<string>, d: seq<string>)
    requires Settled(left, b, a) && Settled(right, d, c)
    ensures Settled(left || right, b + d, a + c)
  {
  }

  /** Settled says exactly when the tokens are the same. */
  lemma SettledMeansKept(joins: bool, kept: seq<string>, full: seq<string>)
    requires Settled(joins, kept, full)
    ensures kept == full <==> !joins
  {
  }

  lemma {:induction false} TokensConcat(kinds: Classes, a: string, c: char, b: string, token: string)
    requires kinds(c).Between?
    ensures Tokens(kinds, a + [c] + b, token) == Tokens(kinds, a, token) + Tokens(kinds, b, "")
  {
    if a == "" {
      assert a + [c] + b == [c] + b;
      TokensCons(kinds, c, b, token);
    } else {
      assert a + [c] + b == [a[0]] + (a[1..] + [c] + b);
      TokensCons(kinds, a[0], a[1..] + [c] + b, token);
      TokensConcat(kinds, a[1..], c, b, token + [a[0]]);
      TokensConcat(kinds, a[1..], c, b, "");
      TokensConcat(kinds, a[1..], c, b, token);
    }
  }

  lemma {:induction false} FullConcat(a: seq<Mark>, b: seq<Mark>)
    ensures Full(a + b) == Full(a) + Full(b)
  {
    if a == [] {
      assert a + b == b;
    } else {
      assert (a + b)[1..] == a[1..] + b;
      FullConcat(a[1..], b);
    }
  }

  lemma {:induction false} KeptConcat(a: seq<Mark>, b: seq<Mark>)
    ensures Kept(a + b) == Kept(a) + Kept(b)
  {
    if a == [] {
      assert a + b == b;
    } else {
      assert (a + b)[1..] == a[1..] + b;
      KeptConcat(a[1..], b);
      assert (if a[0].Keep? then [a[0].c] else "") + Kept(a[1..]) == Kept(a);
    }
  }

  function KeepAll(s: string): (m: seq<Mark>)
    ensures |m| == |s|
  {
    if s == "" then [] else [Keep(s[0])] + KeepAll(s[1..])
  }

  function DropAll(s: string): (m: seq<Mark>)
    ensures |m| == |s|
  {
    if s == "" then [] else [Drop(s[0])] + DropAll(s[1..])
  }

  lemma {:induction false} AllKept(s: string)
    ensures Full(KeepAll(s)) == s && Kept(KeepAll(s)) == s
    ensures forall i :: 0 <= i < |s| ==> KeepAll(s)[i] == Keep(s[i])
  {
    if s != "" {
      AllKept(s[1..]);
      assert KeepAll(s)[1..] == KeepAll(s[1..]);
    }
  }

  lemma {:induction false} AllDropped(s: string)
    ensures Full(DropAll(s)) == s && Kept(DropAll(s)) == ""
    ensures forall i :: 0 <= i < |s| ==> DropAll(s)[i] == Drop(s[i])
  {
    if s != "" {
      AllDropped(s[1..]);
      assert DropAll(s)[1..] == DropAll(s[1..]);
    }
  }

  // ---------------------------------------------------------------------------
  // Joining, told by positions
  // ---------------------------------------------------------------------------

  predicate IsInside(kinds: Classes, m: seq<Mark>, i: int) {
    0 <= i < |m| && kinds(m[i].c).Inside?
  }

  predicate OnlyDrops(m: seq<Mark>, a: int, b: int) {
    forall k :: a < k < b && 0 <= k < |m| ==> m[k].Drop?
  }

  /** Two token characters with dropped characters between them and nothing else. */
  predicate Bridge(kinds: Classes, m: seq<Mark>, a: int, b: int) {
    0 <= a && a + 1 < b && IsInside(kinds, m, a) && IsInside(kinds, m, b) && OnlyDrops(m, a, b)
  }

  ghost predicate HasBridge(kinds: Classes, m: seq<Mark>) {
    exists a, b :: Bridge(kinds, m, a, b)
  }

  /** The first token character stands behind dropped characters only: at least `least` of them. */
  ghost predicate Lead(kinds: Classes, m: seq<Mark>, least: nat) {
    exists b :: least <= b && IsInside(kinds, m, b) && OnlyDrops(m, -1, b)
  }

  lemma BridgeShift(kinds: Classes, m: seq<Mark>, a: int, b: int)
    requires m != [] && a >= 0
    ensures Bridge(kinds, m, a + 1, b + 1) <==> Bridge(kinds, m[1..], a, b)
  {
    if Bridge(kinds, m, a + 1, b + 1) {
      forall k | a < k < b && 0 <= k < |m[1..]| ensures m[1..][k].Drop? {
        assert m[k + 1].Drop?;
      }
    }
    if Bridge(kinds, m[1..], a, b) {
      forall k | a + 1 < k < b + 1 && 0 <= k < |m| ensures m[k].Drop? {
        assert m[1..][k - 1].Drop?;
      }
    }
  }

  lemma LeadShift(kinds: Classes, m: seq<Mark>, least: nat)
    requires m != [] && m[0].Drop? && !kinds(m[0].c).Inside?
    ensures Lead(kinds, m, least) <==> Lead(kinds, m[1..], if least > 0 then least - 1 else 0)
  {
    var less := if least > 0 then least - 1 else 0;
    if Lead(kinds, m, least) {
      var b :| least <= b && IsInside(kinds, m, b) && OnlyDrops(m, -1, b);
      forall k | -1 < k < b - 1 && 0 <= k < |m[1..]| ensures m[1..][k].Drop? {
        assert m[k + 1].Drop?;
      }
      assert less <= b - 1 && IsInside(kinds, m[1..], b - 1) && OnlyDrops(m[1..], -1, b - 1);
    }
    if Lead(kinds, m[1..], less) {
      var b :| less <= b && IsInside(kinds, m[1..], b) && OnlyDrops(m[1..], -1, b);
      forall k | -1 < k < b + 1 && 0 <= k < |m| ensures m[k].Drop? {
        assert k > 0 ==> m[1..][k - 1].Drop?;
      }
      assert least <= b + 1 && IsInside(kinds, m, b + 1) && OnlyDrops(m, -1, b + 1);
    }
  }

  /** A bridge starts at the first mark or lies behind it. */
  lemma BridgeSplit(kinds: Classes, m: seq<Mark>)
    requires m != []
    ensures HasBridge(kinds, m) <==> HasBridge(kinds, m[1..]) || (IsInside(kinds, m, 0) && Lead(kinds, m[1..], 1))
  {
    if HasBridge(kinds, m) {
      var a, b :| Bridge(kinds, m, a, b);
      if a > 0 {
        BridgeShift(kinds, m, a - 1, b - 1);
      } else {
        forall k | -1 < k < b - 1 && 0 <= k < |m[1..]| ensures m[1..][k].Drop? {
          assert m[k + 1].Drop?;
        }
        assert 1 <= b - 1 && IsInside(kinds, m[1..], b - 1) && OnlyDrops(m[1..], -1, b - 1);
      }
    }
    if HasBridge(kinds, m[1..]) {
      var a, b :| Bridge(kinds, m[1..], a, b);
      BridgeShift(kinds, m, a, b);
      assert Bridge(kinds, m, a + 1, b + 1);
    }
    if IsInside(kinds, m, 0) && Lead(kinds, m[1..], 1) {
      var b :| 1 <= b && IsInside(kinds, m[1..], b) && OnlyDrops(m[1..], -1, b);
      forall k | 0 < k < b + 1 && 0 <= k < |m| ensures m[k].Drop? {
        assert m[1..][k - 1].Drop?;
      }
      assert Bridge(kinds, m, 0, b + 1);
    }
  }

  predicate NoneIgnored(kinds: Classes, m: seq<Mark>) {
    forall i :: 0 <= i < |m| ==> !kinds(m[i].c).Ignored?
  }

  lemma {:induction false} JoinsByPositions(kinds: Classes, m: seq<Mark>, reading: bool, gap: bool)
    requires NoneIgnored(kinds, m) && DropsNoToken(kinds, m)
    ensures Joins(kinds, m, reading, gap) <==> HasBridge(kinds, m) || (reading && Lead(kinds, m, if gap then 0 else 1))
  {
    hide Bridge, HasBridge, Lead, IsInside;
    if m == [] {
      NothingBridged(kinds);
    } else {
      BridgeSplit(kinds, m);
      FirstMark(kinds, m);
      if kinds(m[0].c).Inside? {
        JoinsByPositions(kinds, m[1..], true, false);
      } else if m[0].Keep? {
        JoinsByPositions(kinds, m[1..], false, false);
      } else {
        LeadShift(kinds, m, if gap then 0 else 1);
        JoinsByPositions(kinds, m[1..], reading, true);
      }
    }
  }

  lemma NothingBridged(kinds: Classes)
    ensures !HasBridge(kinds, []) && !Lead(kinds, [], 0) && !Lead(kinds, [], 1)
  {
  }

  lemma FirstMark(kinds: Classes, m: seq<Mark>)
    requires m != []
    ensures IsInside(kinds, m, 0) == kinds(m[0].c).Inside?
    ensures m[0].Keep? ==> !Lead(kinds, m, 1) && (Lead(kinds, m, 0) <==> kinds(m[0].c).Inside?)
  {
    if m[0].Keep? && kinds(m[0].c).Inside? {
      assert 0 <= 0 && IsInside(kinds, m, 0) && OnlyDrops(m, -1, 0);
    }
  }

  /** Tokens are joined exactly when two token characters have only dropped characters between them. */
  lemma {:induction false} JoinsMeansBridge(kinds: Classes, m: seq<Mark>)
    requires NoneIgnored(kinds, m) && DropsNoToken(kinds, m)
    ensures Joins(kinds, m, false, false) <==> exists a, b :: Bridge(kinds, m, a, b)
  {
    JoinsByPositions(kinds, m, false, false);
  }
}
