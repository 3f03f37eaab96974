/** Writing a text so that certain characters stand for themselves: each of them is doubled. */
module Escapes {

  /** The first k characters of the text with every special one doubled. */
  function Doubled(text: string, special: set<char>, k: nat): (s: string)
    requires k <= |text|
  {
    if k == 0 then ""
    else Doubled(text, special, k - 1) + (if text[k - 1] in special then [text[k - 1], text[k - 1]] else [text[k - 1]])
  }

  lemma {:induction false} DoubledPrefix(text: string, special: set<char>, j: nat, k: nat)
    requires j <= k <= |text|
    ensures |Doubled(text, special, j)| <= |Doubled(text, special, k)|
    ensures Doubled(text, special, k)[..|Doubled(text, special, j)|] == Doubled(text, special, j)
  {
    if j < k {
      DoubledPrefix(text, special, j, k - 1);
    }
  }

  lemma DoubledGrows(text: string, special: set<char>, j: nat)
    requires j <= |text|
    ensures |Doubled(text, special, j)| <= |Doubled(text, special, |text|)|
  {
    DoubledPrefix(text, special, j, |text|);
  }

  /** Character j of the text stands at the length of what is written before it. */
  lemma DoubledAt(text: string, special: set<char>, j: nat)
    requires j < |text|
    ensures var s, p := Doubled(text, special, |text|), |Doubled(text, special, j)|;
      && p < |s| && s[p] == text[j]
      && |Doubled(text, special, j + 1)| == (if text[j] in special then p + 2 else p + 1) <= |s|
      && (text[j] in special ==> s[p + 1] == text[j])
  {
    var s, d := Doubled(text, special, |text|), Doubled(text, special, j + 1);
    DoubledPrefix(text, special, j + 1, |text|);
    assert s[..|d|] == d;
    assert d[|Doubled(text, special, j)|] == text[j];
    assert forall k :: 0 <= k < |d| ==> s[k] == s[..|d|][k];
  }

  const PERCENT: set<char> := {'%'}

  lemma Regroup(a: string, b: string, c: string, d: string)
    ensures a + (b + c) + d == a + b + (c + d)
  {
  }
}
