/** The word counter of the writing screen (App.tsx `countWords`): the text is
    trimmed, split at every run of whitespace and the pieces are counted. */
module Words {
  import opened Strings
  import Gemini

  /** Index of the first whitespace character of `s` at or after `k`, or `|s|`. */
  function NextSpace(s: string, k: nat): (n: nat)
    requires k <= |s|
    ensures k <= n <= |s|
    ensures n < |s| ==> IsSpace(s[n])
    ensures forall i :: k <= i < n ==> !IsSpace(s[i])
    decreases |s| - k
  {
    if k == |s| || IsSpace(s[k]) then k else NextSpace(s, k + 1)
  }

  /** `s.split(/\s+/)`: the pieces between maximal runs of whitespace. A
      leading or trailing run yields an empty first or last piece, and the
      empty string yields one empty piece. */
  function SplitOnSpace(s: string): (pieces: seq<string>)
    ensures pieces != []
    decreases |s|
  {
    var n := NextSpace(s, 0);
    if n == |s| then [s]
    else
      var m := n + Gemini.SpaceRun(s, n);
      [s[..n]] + SplitOnSpace(s[m..])
  }

  /** `countWords`: the number of pieces of the trimmed text. */
  function CountWords(text: string): (n: nat)
    ensures n >= 1
  {
    |SplitOnSpace(Trim(text))|
  }

  /** The number of words of `s`, counted independently of any splitting:
      the positions that end a maximal run of non-whitespace characters. */
  function WordCount(s: string): nat
    decreases |s|
  {
    if s == [] then 0
    else (if !IsSpace(s[0]) && (|s| == 1 || IsSpace(s[1])) then 1 else 0) + WordCount(s[1..])
  }

  lemma {:induction false} SpacePrefix(sp: string, t: string)
    requires AllSpace(sp)
    ensures WordCount(sp + t) == WordCount(t)
    decreases |sp|
  {
    if sp == [] {
      assert sp + t == t;
    } else {
      assert (sp + t)[1..] == sp[1..] + t;
      SpacePrefix(sp[1..], t);
    }
  }

  lemma {:induction false} SpaceSuffix(t: string, sp: string)
    requires AllSpace(sp)
    ensures WordCount(t + sp) == WordCount(sp) + WordCount(t)
    decreases |t|
  {
    if t == [] {
      assert t + sp == sp;
    } else {
      assert (t + sp)[1..] == t[1..] + sp;
      SpaceSuffix(t[1..], sp);
    }
  }

  lemma AllSpaceNoWords(sp: string)
    requires AllSpace(sp)
    ensures WordCount(sp) == 0
  {
    SpacePrefix(sp, []);
    assert sp + [] == sp;
  }

  /** A word followed by whitespace (or by nothing) adds exactly one. */
  lemma {:induction false} WordThenSpace(w: string, t: string)
    requires w != [] && forall i :: 0 <= i < |w| ==> !IsSpace(w[i])
    requires t == [] || IsSpace(t[0])
    ensures WordCount(w + t) == 1 + WordCount(t)
    decreases |w|
  {
    assert (w + t)[1..] == w[1..] + t;
    if |w| > 1 {
      WordThenSpace(w[1..], t);
    } else {
      assert w[1..] + t == t;
    }
  }

  /** Splitting a text that holds whitespace yields its first piece and the
      pieces after the first run of whitespace. */
  lemma SplitOnce(s: string)
    requires NextSpace(s, 0) < |s|
    ensures |SplitOnSpace(s)| == 1 + |SplitOnSpace(s[NextSpace(s, 0) + Gemini.SpaceRun(s, NextSpace(s, 0))..])|
  {
  }

  /** A first word ending at `n`, followed by the whitespace run `[n, m)`,
      adds one word to those after the run. */
  lemma FirstWord(s: string, n: nat, m: nat)
    requires 0 < n < m <= |s|
    requires forall i :: 0 <= i < n ==> !IsSpace(s[i])
    requires SpaceBetween(s, n, m)
    ensures WordCount(s) == 1 + WordCount(s[m..])
  {
    assert s == s[..n] + s[n..];
    WordThenSpace(s[..n], s[n..]);
    assert s[n..] == s[n..m] + s[m..];
    SpacePrefix(s[n..m], s[m..]);
  }

  /** For a trimmed, non-blank text the pieces are exactly its words. */
  lemma {:induction false} PiecesAreWords(s: string)
    requires Trimmed(s) && s != []
    ensures |SplitOnSpace(s)| == WordCount(s)
    decreases |s|
  {
    var n := NextSpace(s, 0);
    if n == |s| {
      WordThenSpace(s, []);
      assert s + [] == s;
    } else {
      var m := n + Gemini.SpaceRun(s, n);
      assert 0 < n < m < |s|;
      var rest := s[m..];
      assert Trimmed(rest) by {
        assert rest[0] == s[m] && rest[|rest| - 1] == s[|s| - 1];
      }
      FirstWord(s, n, m);
      SplitOnce(s);
      PiecesAreWords(rest);
    }
  }

  /** Whitespace around a text adds no word. */
  lemma WordsAround(a: string, t: string, b: string)
    requires AllSpace(a) && AllSpace(b)
    ensures WordCount(a + (t + b)) == WordCount(t)
  {
    SpacePrefix(a, t + b);
    SpaceSuffix(t, b);
    AllSpaceNoWords(b);
  }

  /** Trimming keeps every word. */
  lemma TrimKeepsWords(text: string)
    ensures WordCount(Trim(text)) == WordCount(text)
  {
    var lo, hi := TrimSplit(text);
    OuterSpace(text, lo, hi);
    WordsAround(text[..lo], text[lo..hi], text[hi..]);
  }

  /** The whitespace outside `[lo, hi)` and what lies between. */
  lemma OuterSpace(s: string, lo: nat, hi: nat)
    requires lo <= hi <= |s| && SpaceBetween(s, 0, lo) && SpaceBetween(s, hi, |s|)
    ensures s == s[..lo] + (s[lo..hi] + s[hi..])
    ensures AllSpace(s[..lo]) && AllSpace(s[hi..])
  {
    assert s == s[..lo] + (s[lo..hi] + s[hi..]);
    forall i | 0 <= i < |s| - hi ensures IsSpace(s[hi..][i]) { assert s[hi..][i] == s[hi + i]; }
  }

  /** `countWords` counts the words of the text, and gives 1 for a text
      with no word at all (splitting the empty string yields one piece). */
  lemma CountWordsCountsWords(text: string)
    ensures AllSpace(text) ==> CountWords(text) == 1
    ensures !AllSpace(text) ==> CountWords(text) == WordCount(text)
  {
    if !AllSpace(text) {
      TrimKeepsWords(text);
      PiecesAreWords(Trim(text));
    } else {
      assert Trim(text) == [];
      assert SplitOnSpace([]) == [[]];
    }
  }
}
