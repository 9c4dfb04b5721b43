/** What the two exporters (services/docxService.ts and
    services/htmlService.ts) share: the link markup removed from reference
    entries, the download file name, the chapter heading and the title of
    the reference list. */
module Export {
  import opened Wrappers
  import opened Strings
  import opened Sorting
  import opened Types

  /** The first index at or after `from` holding `c`. */
  function IndexOfChar(s: string, c: char, from: nat): (r: Option<nat>)
    requires from <= |s|
    ensures r.Some? ==> from <= r.value < |s| && s[r.value] == c
    ensures forall i :: from <= i < |s| && (r.None? || i < r.value) ==> s[i] != c
    decreases |s| - from
  {
    if from == |s| then None
    else if s[from] == c then Some(from)
    else IndexOfChar(s, c, from + 1)
  }

  /** A match of `\[([^\]]+)\]\([^)]+\)` at the start of `s`: `(c, e)`
      where `c` is the index of the closing bracket (the link text is
      `s[1..c]`) and `e` is where the match ends. Both `+` runs are greedy
      over a negated class, so each stops at the first `]`, respectively
      `)`, and must be non-empty. */
  function LinkAt(s: string): (r: Option<(nat, nat)>)
    ensures r.Some? ==>
      var (c, e) := r.value;
      && 1 < c && c + 3 < e <= |s|
      && s[0] == '[' && s[c] == ']' && s[c + 1] == '(' && s[e - 1] == ')'
      && (forall i :: 1 <= i < c ==> s[i] != ']')
      && (forall i :: c + 2 <= i < e - 1 ==> s[i] != ')')
  {
    if s == [] || s[0] != '[' then None
    else match IndexOfChar(s, ']', 1)
      case None => None
      case Some(c) =>
        if c == 1 || c + 1 >= |s| || s[c + 1] != '(' then None
        else match IndexOfChar(s, ')', c + 2)
          case None => None
          case Some(p) => if p == c + 2 then None else Some((c, p + 1))
  }

  /** `ref.replace(/\[([^\]]+)\]\([^)]+\)/g, '$1')`: every Markdown inline
      link, scanning left to right, is replaced by its text. */
  function StripLinks(s: string): (r: string)
    ensures |r| <= |s|
    decreases |s|
  {
    if s == [] then []
    else match LinkAt(s)
      case Some((c, e)) => s[1..c] + StripLinks(s[e..])
      case None => [s[0]] + StripLinks(s[1..])
  }

  /** Text without an opening bracket is left alone. */
  lemma {:induction false} StripLinksNoBracket(s: string)
    requires '[' !in s
    ensures StripLinks(s) == s
    decreases |s|
  {
    if s != [] {
      assert s[0] != '[';
      assert '[' !in s[1..] by {
        forall i | 0 <= i < |s[1..]| ensures s[1..][i] != '[' { assert s[1..][i] == s[i + 1]; }
      }
      StripLinksNoBracket(s[1..]);
      assert [s[0]] + s[1..] == s;
    }
  }

  /** Text in front of the first bracket is kept as it is. */
  lemma {:induction false} StripLinksKeepsPrefix(pre: string, rest: string)
    requires '[' !in pre
    ensures StripLinks(pre + rest) == pre + StripLinks(rest)
    decreases |pre|
  {
    if pre != [] {
      var s := pre + rest;
      assert s[0] == pre[0] && s[1..] == pre[1..] + rest;
      assert '[' !in pre[1..] by {
        forall i | 0 <= i < |pre[1..]| ensures pre[1..][i] != '[' { assert pre[1..][i] == pre[i + 1]; }
      }
      assert LinkAt(s) == None;
      assert StripLinks(s) == [s[0]] + StripLinks(s[1..]);
      StripLinksKeepsPrefix(pre[1..], rest);
      assert [pre[0]] + (pre[1..] + StripLinks(rest)) == pre + StripLinks(rest);
    } else {
      assert pre + rest == rest && pre + StripLinks(rest) == StripLinks(rest);
    }
  }

  /** No link starts at any of the first `n` positions of `s`. */
  predicate NoLinkBefore(s: string, n: nat)
    requires n <= |s|
  {
    forall i :: 0 <= i < n ==> LinkAt(s[i..]).None?
  }

  /** Text at none of whose positions a link starts is kept as it is, even
      when it holds brackets. */
  lemma {:induction false} StripLinksKeepsUnlinked(pre: string, rest: string)
    requires NoLinkBefore(pre + rest, |pre|)
    ensures StripLinks(pre + rest) == pre + StripLinks(rest)
    decreases |pre|
  {
    if pre == [] {
      assert pre + rest == rest;
    } else {
      var s := pre + rest;
      StripLinksNoLinkStep(s);
      assert s[1..] == pre[1..] + rest;
      assert NoLinkBefore(pre[1..] + rest, |pre| - 1) by {
        forall i | 0 <= i < |pre| - 1 ensures LinkAt(s[1..][i..]).None? {
          assert s[1..][i..] == s[i + 1..];
        }
      }
      StripLinksKeepsUnlinked(pre[1..], rest);
      assert [pre[0]] + (pre[1..] + StripLinks(rest)) == pre + StripLinks(rest);
    }
  }

  /** Where no link starts, the first character is copied. */
  lemma StripLinksNoLinkStep(s: string)
    requires s != [] && NoLinkBefore(s, 1)
    ensures StripLinks(s) == [s[0]] + StripLinks(s[1..])
  {
    assert s[0..] == s;
  }

  /** A bracketed mark such as `[1] ` is not a link: it stays, and a link
      after it is replaced by its text, so `[1] [a](b)` becomes `[1] a`. */
  lemma StripLinksKeepsCitation(d: string, text: string, url: string, rest: string)
    requires '[' !in d && ']' !in d
    requires text != [] && url != [] && ']' !in text && ')' !in url
    ensures StripLinks(CitationMark(d) + LinkMarkup(text, url) + rest)
            == CitationMark(d) + text + StripLinks(rest)
  {
    var pre, tail := CitationMark(d), LinkMarkup(text, url) + rest;
    var s := pre + tail;
    assert NoLinkBefore(s, |pre|) by {
      forall i | 0 <= i < |pre| ensures LinkAt(s[i..]).None? {
        CitationNoLink(d, tail, i);
      }
    }
    StripLinksKeepsUnlinked(pre, tail);
    StripLinksAtLink(text, url, rest);
    AppendAssoc(pre, LinkMarkup(text, url), rest);
    AppendAssoc(pre, text, StripLinks(rest));
  }

  /** `[d] `, a bracketed mark followed by a space. */
  function CitationMark(d: string): (m: string)
    ensures |m| == |d| + 3
  {
    "[" + d + "] "
  }

  /** No link starts inside a citation mark. */
  lemma CitationNoLink(d: string, tail: string, i: nat)
    requires '[' !in d && ']' !in d && i < |d| + 3
    ensures LinkAt((CitationMark(d) + tail)[i..]).None?
  {
    var s := CitationMark(d) + tail;
    if i == 0 {
      assert s[0..] == s;
      assert forall k :: 1 <= k <= |d| ==> s[k] == d[k - 1];
      IndexOfCharAt(s, ']', 1, |d| + 1);
      assert s[|d| + 2] == ' ';
    } else {
      assert s[i..][0] == s[i];
      assert 1 <= i <= |d| ==> s[i] == d[i - 1];
    }
  }

  /** The first `c` at or after `from` is at `k`. */
  lemma IndexOfCharAt(s: string, c: char, from: nat, k: nat)
    requires from <= k < |s| && s[k] == c
    requires forall i :: from <= i < k ==> s[i] != c
    ensures IndexOfChar(s, c, from) == Some(k)
  {
  }

  /** Markdown inline-link markup: `[text](url)`. */
  function LinkMarkup(text: string, url: string): (m: string)
    ensures |m| == |text| + |url| + 4
  {
    "[" + text + "](" + url + ")"
  }

  /** The shape `LinkAt` looks for, stated on indices. */
  lemma LinkAtOf(s: string, c: nat, e: nat)
    requires 1 < c && c + 3 < e <= |s|
    requires s[0] == '[' && s[c] == ']' && s[c + 1] == '(' && s[e - 1] == ')'
    requires forall i :: 1 <= i < c ==> s[i] != ']'
    requires forall i :: c + 2 <= i < e - 1 ==> s[i] != ')'
    ensures LinkAt(s) == Some((c, e))
  {
    IndexOfCharAt(s, ']', 1, c);
    IndexOfCharAt(s, ')', c + 2, e - 1);
  }

  /** A link found at the start is replaced by its text. */
  lemma StripLinksAt(s: string, c: nat, e: nat)
    requires LinkAt(s) == Some((c, e))
    ensures 1 < c < e <= |s| && StripLinks(s) == s[1..c] + StripLinks(s[e..])
  {
  }

  /** A link at the very start is replaced by its text. */
  lemma StripLinksAtLink(text: string, url: string, rest: string)
    requires text != [] && url != [] && ']' !in text && ')' !in url
    ensures StripLinks(LinkMarkup(text, url) + rest) == text + StripLinks(rest)
  {
    var s := "[" + text + "](" + url + ")" + rest;
    assert s == LinkMarkup(text, url) + rest;
    var c := |text| + 1;
    var e := c + 2 + |url| + 1;
    assert forall i :: 1 <= i < c ==> s[i] == text[i - 1];
    assert forall i :: c + 2 <= i < e - 1 ==> s[i] == url[i - c - 2];
    assert s[1..c] == text;
    assert s[e..] == rest;
    LinkAtOf(s, c, e);
    StripLinksAt(s, c, e);
  }

  /** `[text](url)` becomes `text`, for a non-empty text without `]` and a
      non-empty url without `)`; the text before it, free of `[`, is kept
      and the rest is processed on its own. */
  lemma StripLinksReplacesLink(pre: string, text: string, url: string, rest: string)
    requires '[' !in pre && text != [] && url != []
    requires ']' !in text && ')' !in url
    ensures StripLinks(pre + LinkMarkup(text, url) + rest) == pre + text + StripLinks(rest)
  {
    StripLinksAtLink(text, url, rest);
    AppendAssoc(pre, LinkMarkup(text, url), rest);
    StripLinksKeepsPrefix(pre, LinkMarkup(text, url) + rest);
    AppendAssoc(pre, text, StripLinks(rest));
  }

  /** A character `\w` matches. */
  predicate IsWordChar(c: char) {
    'a' <= c <= 'z' || 'A' <= c <= 'Z' || '0' <= c <= '9' || c == '_'
  }

  predicate IsSlugChar(c: char) {
    'a' <= c <= 'z' || '0' <= c <= '9' || c == '_'
  }

  /** Length of the run of non-word characters at the start of `s`. */
  function NonWordRun(s: string): (n: nat)
    ensures n <= |s|
    ensures forall i :: 0 <= i < n ==> !IsWordChar(s[i])
    ensures n < |s| ==> IsWordChar(s[n])
  {
    if s != [] && !IsWordChar(s[0]) then
      var n := NonWordRun(s[1..]);
      assert forall i :: 1 <= i < n + 1 ==> s[i] == s[1..][i - 1];
      1 + n
    else 0
  }

  /** `.replace(/[\s\W]+/g, '_')`: every run of characters that are not
      word characters (whitespace is among them) becomes one `_`. */
  function CollapseNonWord(s: string): (r: string)
    ensures forall i :: 0 <= i < |r| ==> IsWordChar(r[i])
    ensures |r| <= |s|
    decreases |s|
  {
    if s == [] then []
    else if IsWordChar(s[0]) then [s[0]] + CollapseNonWord(s[1..])
    else "_" + CollapseNonWord(s[NonWordRun(s)..])
  }

  /** The file name stem: the lower-cased title with every run of
      whitespace and punctuation turned into one `_`. */
  function Slug(title: string): (r: string)
    ensures forall i :: 0 <= i < |r| ==> IsSlugChar(r[i])
    ensures |r| <= |title|
  {
    var r := CollapseNonWord(LowerAll(title));
    assert forall i :: 0 <= i < |r| ==> IsSlugChar(r[i]) by {
      forall i | 0 <= i < |r| ensures IsSlugChar(r[i]) {
        LowerWordChar(r, LowerAll(title), i);
      }
    }
    r
  }

  /** A word character of a collapsed lower-cased text is not upper case. */
  lemma LowerWordChar(r: string, low: string, i: nat)
    requires r == CollapseNonWord(low) && i < |r|
    requires forall k :: 0 <= k < |low| ==> !('A' <= low[k] <= 'Z')
    ensures IsSlugChar(r[i])
    decreases |low|
  {
    if i > 0 {
      var m := if IsWordChar(low[0]) then 1 else NonWordRun(low);
      assert r[1..] == CollapseNonWord(low[m..]);
      assert forall k :: 0 <= k < |low[m..]| ==> low[m..][k] == low[m + k];
      LowerWordChar(r[1..], low[m..], i - 1);
      assert r[i] == r[1..][i - 1];
    }
  }

  /** A title that is already made of lower-case word characters is its own
      slug. */
  lemma {:induction false} SlugOfSlugText(s: string)
    requires forall i :: 0 <= i < |s| ==> IsSlugChar(s[i])
    ensures Slug(s) == s
  {
    assert LowerAll(s) == s;
    CollapseWordText(s);
  }

  lemma {:induction false} CollapseWordText(s: string)
    requires forall i :: 0 <= i < |s| ==> IsWordChar(s[i])
    ensures CollapseNonWord(s) == s
    decreases |s|
  {
    if s != [] {
      CollapseWordText(s[1..]);
      assert [s[0]] + s[1..] == s;
    }
  }

  /** A run of non-word characters is measured up to the first word
      character after it, or to the end of the text. */
  lemma {:induction false} NonWordRunOf(w: string, b: string)
    requires forall i :: 0 <= i < |w| ==> !IsWordChar(w[i])
    requires b == [] || IsWordChar(b[0])
    ensures NonWordRun(w + b) == |w|
    decreases |w|
  {
    if w != [] {
      assert (w + b)[0] == w[0] && (w + b)[1..] == w[1..] + b;
      NonWordRunOf(w[1..], b);
    } else {
      assert w + b == b;
    }
  }

  /** The collapsing rule, one run at a time: the word characters before a
      maximal run of other characters are kept as they are, and the whole
      run, however long, becomes a single `_`. */
  lemma CollapseRun(a: string, w: string, b: string)
    requires forall i :: 0 <= i < |a| ==> IsWordChar(a[i])
    requires w != [] && forall i :: 0 <= i < |w| ==> !IsWordChar(w[i])
    requires b == [] || IsWordChar(b[0])
    ensures CollapseNonWord(a + w + b) == a + "_" + CollapseNonWord(b)
  {
    assert a + w + b == a + (w + b);
    CollapseWordPrefix(a, w + b);
    CollapseRunStart(w, b);
  }

  /** Word characters at the front of a text are copied unchanged. */
  lemma {:induction false} CollapseWordPrefix(a: string, u: string)
    requires forall i :: 0 <= i < |a| ==> IsWordChar(a[i])
    ensures CollapseNonWord(a + u) == a + CollapseNonWord(u)
    decreases |a|
  {
    if a == [] {
      assert a + u == u;
    } else {
      assert (a + u)[0] == a[0] && (a + u)[1..] == a[1..] + u;
      CollapseWordPrefix(a[1..], u);
      assert [a[0]] + (a[1..] + CollapseNonWord(u)) == a + CollapseNonWord(u);
    }
  }

  /** A maximal run of non-word characters at the front becomes one `_`. */
  lemma CollapseRunStart(w: string, b: string)
    requires w != [] && forall i :: 0 <= i < |w| ==> !IsWordChar(w[i])
    requires b == [] || IsWordChar(b[0])
    ensures CollapseNonWord(w + b) == "_" + CollapseNonWord(b)
  {
    NonWordRunOf(w, b);
    assert (w + b)[0] == w[0];
    assert (w + b)[|w|..] == b;
  }

  /** The slug rule on a title, one run at a time: lower-case word characters
      are kept, and a maximal run of whitespace or punctuation becomes one
      `_`. */
  lemma SlugRun(a: string, w: string, b: string)
    requires forall i :: 0 <= i < |a| ==> IsSlugChar(a[i])
    requires w != [] && forall i :: 0 <= i < |w| ==> !IsWordChar(w[i])
    requires b == [] || IsWordChar(b[0])
    ensures Slug(a + w + b) == a + "_" + Slug(b)
  {
    var lw, lb := LowerAll(w), LowerAll(b);
    assert LowerAll(a + w + b) == a + lw + lb;
    CollapseRun(a, lw, lb);
  }

  /** The slug rule is idempotent: a slug is its own slug. */
  lemma SlugIdempotent(title: string)
    ensures Slug(Slug(title)) == Slug(title)
  {
    SlugOfSlugText(Slug(title));
  }

  /** The download name of either exporter: the slug of the title, then
      the extension. */
  function FileName(title: string, extension: string): (name: string)
    ensures EndsWith(name, extension) && name[..|name| - |extension|] == Slug(title)
  {
    var name := Slug(title) + extension;
    assert name[|name| - |extension|..] == extension;
    name
  }

  /** The word in front of a chapter number. */
  function ChapterWord(lang: string): (w: string)
    ensures IsEnglish(lang) <==> w == "Chapter"
    ensures ' ' !in w && w != []
  {
    var es := "Cap" + "ítulo";
    assert es[0] == 'C' && es[3] != 't';
    assert forall i :: 0 <= i < |es| ==> es[i] != ' ';
    if IsEnglish(lang) then "Chapter" else es
  }

  /** `Chapter ${index + 1}: ${chapter.titulo}` (or `Capítulo …`), with the
      1-based position `k`. */
  function ChapterHeading(lang: string, k: nat, title: string): (h: string)
    ensures EndsWith(h, ": " + title)
    ensures StartsWith(h, ChapterWord(lang) + " ")
  {
    Framed(ChapterWord(lang) + " ", Decimal(k), ": ", title);
    ChapterWord(lang) + " " + Decimal(k) + ": " + title
  }

  /** Length of the run of decimal digits at the start of `s`. */
  function DigitRun(s: string): (n: nat)
    ensures n <= |s|
  {
    if s != [] && '0' <= s[0] <= '9' then 1 + DigitRun(s[1..]) else 0
  }

  lemma {:induction false} DigitRunOf(d: string, u: string)
    requires forall i :: 0 <= i < |d| ==> '0' <= d[i] <= '9'
    requires u != [] && !('0' <= u[0] <= '9')
    ensures DigitRun(d + u) == |d|
    decreases |d|
  {
    if d == [] {
      assert d + u == u;
    } else {
      assert (d + u)[0] == d[0] && (d + u)[1..] == d[1..] + u;
      DigitRunOf(d[1..], u);
    }
  }

  /** A digit string followed by `: ` can be read back from the text. */
  lemma DigitsColonUnique(d1: string, t1: string, d2: string, t2: string)
    requires forall i :: 0 <= i < |d1| ==> '0' <= d1[i] <= '9'
    requires forall i :: 0 <= i < |d2| ==> '0' <= d2[i] <= '9'
    requires d1 + (": " + t1) == d2 + (": " + t2)
    ensures d1 == d2 && t1 == t2
  {
    var x := d1 + (": " + t1);
    DigitRunOf(d1, ": " + t1);
    DigitRunOf(d2, ": " + t2);
    assert d1 == x[..|d1|] && d2 == x[..|d2|];
    assert t1 == x[|d1| + 2..] && t2 == x[|d2| + 2..];
  }

  /** `head + mid + sep + tail` starts with `head` and ends with `sep + tail`. */
  lemma Framed(head: string, mid: string, sep: string, tail: string)
    ensures StartsWith(head + mid + sep + tail, head)
    ensures EndsWith(head + mid + sep + tail, sep + tail)
  {
    var h := head + mid + sep + tail;
    assert h == head + (mid + (sep + tail)) && h == (head + mid) + (sep + tail) by {
      Regroup(head, mid, sep, tail);
    }
    Halves(head, mid + (sep + tail));
    Halves(head + mid, sep + tail);
  }

  lemma Regroup(a: string, b: string, c: string, d: string)
    ensures a + b + c + d == a + (b + (c + d))
  {
  }

  lemma Halves(a: string, b: string)
    ensures (a + b)[..|a|] == a && (a + b)[|a|..] == b
  {
  }

  lemma CancelHead(head: string, x1: string, x2: string)
    requires head + x1 == head + x2
    ensures x1 == x2
  {
    assert x1 == (head + x1)[|head|..];
    assert x2 == (head + x2)[|head|..];
  }

  /** Distinct positions or titles give distinct headings: the number and
      the title can be read back from the heading. */
  lemma ChapterHeadingInjective(lang: string, k1: nat, t1: string, k2: nat, t2: string)
    requires ChapterHeading(lang, k1, t1) == ChapterHeading(lang, k2, t2)
    ensures k1 == k2 && t1 == t2
  {
    var head := ChapterWord(lang) + " ";
    var d1, d2 := Decimal(k1), Decimal(k2);
    var x1, x2 := d1 + (": " + t1), d2 + (": " + t2);
    assert x1 == x2 by {
      Regroup(head, d1, ": ", t1);
      Regroup(head, d2, ": ", t2);
      CancelHead(head, x1, x2);
    }
    DigitsColonUnique(d1, t1, d2, t2);
    DecimalRoundTrip(k1);
    DecimalRoundTrip(k2);
  }

  /** The heading of a reference list. */
  function ReferencesTitle(lang: string): (t: string)
    ensures IsEnglish(lang) <==> t == "References"
    ensures !IsEnglish(lang) <==> t == "Referencias"
  {
    if IsEnglish(lang) then "References" else "Referencias"
  }

  /** Each entry with its links stripped, in order. */
  function StripAll(refs: seq<string>): (r: seq<string>)
    ensures |r| == |refs| && forall i :: 0 <= i < |refs| ==> r[i] == StripLinks(refs[i])
  {
    seq(|refs|, i requires 0 <= i < |refs| => StripLinks(refs[i]))
  }

  /** What an exporter prints for a reference list: the entries sorted,
      then stripped of link markup. */
  function PreparedReferences(refs: seq<string>): (r: seq<string>)
    ensures |r| == |refs|
    ensures multiset(r) == multiset(StripAll(refs))
    ensures forall i :: 0 <= i < |r| ==> r[i] == StripLinks(Sort(refs)[i])
  {
    var sorted := Sort(refs);
    StripAllPermutes(sorted, refs);
    StripAll(sorted)
  }

  lemma StripAllAppend(a: seq<string>, b: seq<string>)
    ensures StripAll(a + b) == StripAll(a) + StripAll(b)
  {
    var l, r := StripAll(a + b), StripAll(a) + StripAll(b);
    assert |l| == |r|;
    forall i | 0 <= i < |l| ensures l[i] == r[i] {
      if i < |a| { assert (a + b)[i] == a[i]; } else { assert (a + b)[i] == b[i - |a|]; }
    }
  }

  /** Removing one occurrence of `x` from two lists with the same contents
      leaves the same contents. */
  lemma RemoveOne(a': seq<string>, x: string, b1: seq<string>, b2: seq<string>)
    requires multiset(a' + [x]) == multiset(b1 + [x] + b2)
    ensures multiset(a') == multiset(b1 + b2)
  {
    var m, n := multiset(a'), multiset(b1 + b2);
    assert multiset(a' + [x]) == m + multiset{x};
    assert multiset(b1 + [x] + b2) == n + multiset{x};
    forall y ensures m[y] == n[y] {
      assert (m + multiset{x})[y] == (n + multiset{x})[y];
    }
  }

  /** Stripping commutes with reordering. */
  lemma {:induction false} StripAllPermutes(a: seq<string>, b: seq<string>)
    requires multiset(a) == multiset(b)
    ensures multiset(StripAll(a)) == multiset(StripAll(b))
    decreases |a|
  {
    if a != [] {
      var x := a[|a| - 1];
      var a' := a[..|a| - 1];
      assert a == a' + [x];
      assert x in multiset(b);
      var k :| 0 <= k < |b| && b[k] == x;
      var b1, b2 := b[..k], b[k + 1..];
      assert b == b1 + [x] + b2;
      RemoveOne(a', x, b1, b2);
      StripAllPermutes(a', b1 + b2);
      StripAllAppend(a', [x]);
      StripAllAppend(b1 + [x], b2);
      StripAllAppend(b1, [x]);
      StripAllAppend(b1, b2);
    } else {
      assert |b| == |multiset(b)| == |multiset(a)| == 0;
    }
  }
}
