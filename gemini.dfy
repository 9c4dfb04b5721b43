/** The deterministic part of the generation service (services/geminiService.ts):
    cleaning the text the model returns for a section, choosing the
    reference separator, splitting the response into body text and
    reference lines, and the localized error messages. The requests
    themselves are oracles: an absent response stands for any failure of
    the call. */
module Gemini {
  import opened Wrappers
  import opened Strings
  import opened Types

  /** Number of `#` characters at the start of `s`. */
  function HashRun(s: string): (n: nat)
    ensures n <= |s|
    ensures forall i :: 0 <= i < n ==> s[i] == '#'
    ensures n < |s| ==> s[n] != '#'
  {
    if s != [] && s[0] == '#' then
      var n := HashRun(s[1..]);
      assert forall i :: 1 <= i < n + 1 ==> s[i] == s[1..][i - 1];
      1 + n
    else 0
  }

  /** Number of whitespace characters of `s` from index `k` on. */
  function SpaceRun(s: string, k: nat): (n: nat)
    requires k <= |s|
    ensures k + n <= |s| && SpaceBetween(s, k, k + n)
    ensures k + n < |s| ==> !IsSpace(s[k + n])
    decreases |s| - k
  {
    if k < |s| && IsSpace(s[k]) then 1 + SpaceRun(s, k + 1) else 0
  }

  /** `title` occurs at index `k` of `s`, ignoring case. */
  predicate TitleAt(s: string, title: string, k: nat) {
    k + |title| <= |s| && SameIgnoringCase(s[k..k + |title|], title)
  }

  /** The first alternative of the title pattern, `#+\s*TITLE` at the start
      of `s`: `#+` first takes `k` hashes and gives one back at a time,
      `\s*` takes the whitespace after them. The result is the index just
      past the title. */
  function HeadingTitleEnd(s: string, title: string, k: nat): (r: Option<nat>)
    requires k <= HashRun(s)
    ensures r.Some? ==> |title| < r.value <= |s|
  {
    if k == 0 then None
    else
      var m := SpaceRun(s, k);
      if TitleAt(s, title, k + m) then Some(k + m + |title|)
      else HeadingTitleEnd(s, title, k - 1)
  }

  /** Where the match of `^((#+\s*TITLE)|(TITLE))` ends, if it matches. */
  function TitleEnd(s: string, title: string): (r: Option<nat>)
    ensures r.Some? ==> |title| <= r.value <= |s|
  {
    match HeadingTitleEnd(s, title, HashRun(s))
    case Some(e) => Some(e)
    case None => if TitleAt(s, title, 0) then Some(|title|) else None
  }

  /** The title follows the first `j` characters of `s` and the whitespace
      after them. */
  predicate TitleAfter(s: string, title: string, j: nat)
    requires j <= |s|
  {
    TitleAt(s, title, j + SpaceRun(s, j))
  }

  /** The heading alternative finds nothing exactly when, for no number `j`
      of hashes up to `k`, the title follows the `j` hashes and the
      whitespace after them. */
  lemma {:induction false} HeadingTitleEndNone(s: string, title: string, k: nat)
    requires k <= HashRun(s)
    ensures HeadingTitleEnd(s, title, k).None? <==> forall j :: 1 <= j <= k ==> !TitleAfter(s, title, j)
    decreases k
  {
    if k > 0 {
      HeadingTitleEndNone(s, title, k - 1);
      if TitleAfter(s, title, k) {
        assert HeadingTitleEnd(s, title, k).Some?;
      } else {
        assert HeadingTitleEnd(s, title, k) == HeadingTitleEnd(s, title, k - 1);
      }
    }
  }

  /** The title pattern does not match exactly when the title is neither at
      the start nor after any run of leading hashes and its whitespace. */
  lemma TitleEndNone(s: string, title: string)
    ensures TitleEnd(s, title).None? <==>
              && !TitleAt(s, title, 0)
              && forall j :: 1 <= j <= HashRun(s) ==> !TitleAfter(s, title, j)
  {
    HeadingTitleEndNone(s, title, HashRun(s));
  }

  /** Where the text kept by the title pattern starts in `t`: after the
      match and the whitespace that follows it, or 0 when the pattern does
      not match. */
  function TitleCut(t: string, tt: string): (cut: nat)
    ensures cut <= |t|
  {
    match TitleEnd(t, tt)
    case None => 0
    case Some(e) => e + SpaceRun(t, e)
  }

  /** `cleanGeneratedText`: trims the text and removes one leading copy of
      the section title (optionally behind `#` heading markers, ignoring
      case) together with the whitespace after it. */
  function CleanGeneratedText(text: string, title: string): (r: string)
    ensures Trimmed(r)
    ensures |r| <= |text|
    ensures AllSpace(title) ==> r == Trim(text)
  {
    var t := Trim(text);
    var tt := Trim(title);
    if tt == [] then t else Trim(t[TitleCut(t, tt)..])
  }

  lemma LowerKeepsKind(c: char)
    ensures IsSpace(Lower(c)) <==> IsSpace(c)
    ensures Lower(c) == '#' <==> c == '#'
    ensures IsSpace(c) || c == '#' ==> Lower(c) == c
  {
  }

  /** Once the pattern has matched up to index `e`, the result is the
      rest of the text, trimmed. */
  lemma CleanAfterMatch(text: string, title: string, e: nat)
    requires Trim(title) != [] && TitleEnd(Trim(text), Trim(title)) == Some(e)
    ensures CleanGeneratedText(text, title) == Trim(Trim(text)[e..])
  {
    var t := Trim(text);
    TrimSkipsSpace(t, e, TitleCut(t, Trim(title)));
  }

  lemma TitleEndAtStart(t: string, tt: string)
    requires tt != [] && tt[0] != '#' && TitleAt(t, tt, 0)
    ensures TitleEnd(t, tt) == Some(|tt|)
  {
    LowerKeepsKind(t[0]);
    LowerKeepsKind(tt[0]);
    assert t[..|tt|][0] == t[0];
    assert HashRun(t) == 0;
  }

  /** A trimmed text that starts with the title (in any case) loses the
      title and the whitespace after it; the match is a bare prefix match,
      with no word boundary after the title. */
  lemma CleanStripsLeadingTitle(text: string, title: string)
    requires var tt := Trim(title); tt != [] && tt[0] != '#' && TitleAt(Trim(text), tt, 0)
    ensures CleanGeneratedText(text, title) == Trim(Trim(text)[|Trim(title)|..])
  {
    TitleEndAtStart(Trim(text), Trim(title));
    CleanAfterMatch(text, title, |Trim(title)|);
  }

  /** `k` hashes followed by something that is not a hash. */
  lemma {:induction false} HashRunOf(h: string, u: string)
    requires forall i :: 0 <= i < |h| ==> h[i] == '#'
    requires u == [] || u[0] != '#'
    ensures HashRun(h + u) == |h|
  {
    if h != [] {
      assert (h + u)[1..] == h[1..] + u;
      HashRunOf(h[1..], u);
    }
  }

  /** `k` heading markers. */
  function Hashes(k: nat): (h: string)
    ensures |h| == k && forall i :: 0 <= i < k ==> h[i] == '#'
  {
    seq(k, _ => '#')
  }

  /** The four pieces of `h + w + x + rest`, as slices. */
  lemma FourPieces(h: string, w: string, x: string, rest: string)
    ensures var t := h + w + x + rest;
      && t == h + (w + x + rest)
      && t[|h|..|h| + |w|] == w
      && t[|h| + |w|..|h| + |w| + |x|] == x
      && t[|h| + |w| + |x|..] == rest
  {
  }

  /** The heading markers of `Hashes(k) + w + x + rest` are its first `k`
      characters when `x` does not start with one. */
  lemma HeadingHashes(k: nat, w: string, x: string, rest: string)
    requires AllSpace(w) && x != [] && x[0] != '#'
    ensures HashRun(Hashes(k) + w + x + rest) == k
  {
    var u := w + x + rest;
    assert u[0] != '#' by {
      if w != [] { assert u[0] == w[0]; } else { assert u[0] == x[0]; }
    }
    HashRunOf(Hashes(k), u);
    assert Hashes(k) + w + x + rest == Hashes(k) + u;
  }

  /** The whitespace after the markers is exactly `w` when `x` does not
      start with whitespace. */
  lemma HeadingSpace(k: nat, w: string, x: string, rest: string)
    requires AllSpace(w) && x != [] && !IsSpace(x[0])
    ensures k + |w| < |Hashes(k) + w + x + rest|
    ensures SpaceRun(Hashes(k) + w + x + rest, k) == |w|
  {
    var t := Hashes(k) + w + x + rest;
    FourPieces(Hashes(k), w, x, rest);
    var sw := t[k..k + |w|];
    assert forall i :: k <= i < k + |w| ==> t[i] == sw[i - k];
    assert t[k + |w|] == t[k + |w|..k + |w| + |x|][0];
    SpaceRunAt(t, k, |w|);
  }

  /** `t` is a heading line for the title `tt`: `k >= 1` markers,
      whitespace `w`, the title `x` in any case, and then `rest`. */
  predicate HeadingLine(t: string, tt: string, k: nat, w: string, x: string, rest: string) {
    k >= 1 && AllSpace(w) && SameIgnoringCase(x, tt) && t == Hashes(k) + w + x + rest
  }

  /** The pieces of a heading line, as the title pattern sees them. */
  lemma HeadingParts(t: string, tt: string, k: nat, w: string, x: string, rest: string)
    requires Trimmed(tt) && tt != [] && tt[0] != '#'
    requires HeadingLine(t, tt, k, w, x, rest)
    ensures 1 <= k == HashRun(t) && k + |w| <= |t| && SpaceRun(t, k) == |w|
    ensures TitleAt(t, tt, k + |w|) && |x| == |tt|
    ensures t[k + |w| + |x|..] == rest
  {
    assert x[0] != '#' && !IsSpace(x[0]) by {
      LowerKeepsKind(x[0]);
      LowerKeepsKind(tt[0]);
    }
    HeadingHashes(k, w, x, rest);
    HeadingSpace(k, w, x, rest);
    FourPieces(Hashes(k), w, x, rest);
  }

  /** The heading alternative matches with all `k` markers taken when the
      title follows them and their whitespace run. */
  lemma HeadingMatch(s: string, title: string, k: nat, m: nat, e: nat)
    requires 1 <= k == HashRun(s) && k + m <= |s| && SpaceRun(s, k) == m && TitleAt(s, title, k + m)
    requires e == k + m + |title|
    ensures TitleEnd(s, title) == Some(e)
  {
    var r := HeadingTitleEnd(s, title, k);
    assert r == Some(e);
    assert TitleEnd(s, title) == r;
  }

  /** A text that starts with one or more `#`, optional whitespace and
      then the title loses all of that and the whitespace after it. */
  lemma CleanStripsHeadingTitle(text: string, title: string, k: nat, w: string, x: string, rest: string)
    requires var tt := Trim(title); tt != [] && tt[0] != '#'
    requires HeadingLine(Trim(text), Trim(title), k, w, x, rest)
    ensures CleanGeneratedText(text, title) == Trim(rest)
  {
    var t, tt := Trim(text), Trim(title);
    var e := k + |w| + |x|;
    HeadingParts(t, tt, k, w, x, rest);
    HeadingMatch(t, tt, k, |w|, e);
    CleanAfterMatch(text, title, e);
  }

  lemma SpaceRunAt(s: string, k: nat, n: nat)
    requires k + n < |s| && SpaceBetween(s, k, k + n) && !IsSpace(s[k + n])
    ensures SpaceRun(s, k) == n
    decreases n
  {
    if n > 0 { SpaceRunAt(s, k + 1, n - 1); }
  }

  /** A text that starts neither with `#` nor with the title comes back
      merely trimmed. */
  lemma CleanLeavesOtherText(text: string, title: string)
    requires var t := Trim(text); var tt := Trim(title);
             tt != [] && (t == [] || t[0] != '#') && !TitleAt(t, tt, 0)
    ensures CleanGeneratedText(text, title) == Trim(text)
  {
  }

  /** A text in which the title pattern finds no match, neither at the start
      nor after leading hashes and whitespace, comes back merely trimmed. */
  lemma CleanWithoutMatch(text: string, title: string)
    requires var t := Trim(text); var tt := Trim(title);
             && !TitleAt(t, tt, 0)
             && forall j :: 1 <= j <= HashRun(t) ==> !TitleAfter(t, tt, j)
    ensures CleanGeneratedText(text, title) == Trim(text)
  {
    TitleEndNone(Trim(text), Trim(title));
    CleanNoCut(text, title);
  }

  lemma CleanNoCut(text: string, title: string)
    requires TitleEnd(Trim(text), Trim(title)).None?
    ensures CleanGeneratedText(text, title) == Trim(text)
  {
    var t := Trim(text);
    assert t[0..] == t;
  }

  /** A trimmed text made of the (trimmed) title and a tail keeps the
      trimmed tail. */
  lemma CleanAfterTitle(title: string, tail: string)
    requires Trimmed(title) && title != [] && title[0] != '#'
    requires Trimmed(title + tail)
    ensures CleanGeneratedText(title + tail, title) == Trim(tail)
  {
    var t := title + tail;
    assert t[..|title|] == title && t[|title|..] == tail;
    CleanStripsLeadingTitle(t, title);
  }

  /** The title is removed once: a text that repeats the title on its
      second line keeps the second copy. */
  lemma CleanRemovesOnlyOneCopy(title: string, rest: string)
    requires Trimmed(title) && title != [] && title[0] != '#'
    requires Trimmed(rest)
    ensures CleanGeneratedText(title + "\n" + title + rest, title) == title + rest
  {
    var u := title + rest;
    var nl: string := "\n";
    TrimmedAround(title, nl, rest);
    TrimmedAround(title, nl, u);
    calc {
      CleanGeneratedText(title + nl + title + rest, title);
      { assert title + nl + title + rest == title + (nl + u); }
      CleanGeneratedText(title + (nl + u), title);
      { CleanAfterTitle(title, nl + u); }
      Trim(nl + u);
      { assert nl + u + [] == nl + u; TrimIgnoresOuterSpace(nl, u, []); }
      u;
    }
  }

  /** No word boundary is required after the title: a text that merely
      starts with the title's letters loses them. */
  lemma CleanCutsInsideAWord(title: string, tail: string)
    requires Trimmed(title) && title != [] && title[0] != '#'
    requires Trimmed(tail) && tail != []
    ensures CleanGeneratedText(title + tail, title) == tail
  {
    TrimmedAround(title, [], tail);
    CleanAfterTitle(title, tail);
  }

  /** The separator the section prompt asks the model to put between the
      body and the reference list. */
  function ReferenceSeparator(lang: string): (sep: string)
    ensures |sep| == 16 || |sep| == 17
    ensures IsEnglish(lang) <==> sep == "###REFERENCES###"
    ensures !IsEnglish(lang) <==> sep == "###REFERENCIAS###"
  {
    if IsEnglish(lang) then "###REFERENCES###" else "###REFERENCIAS###"
  }

  /** The message of the error thrown when writing a section fails. */
  function SectionErrorMessage(lang: string, sectionTitle: string): (m: string)
    ensures EndsWith(m, "\"" + sectionTitle + "\".")
    ensures IsEnglish(lang) <==> StartsWith(m, "Could not")
  {
    var suffix := "\"" + sectionTitle + "\".";
    var en := "Could not generate content for section ";
    var es := "No se pudo generar el contenido para la sección ";
    var m := if IsEnglish(lang) then en + suffix else es + suffix;
    assert m[|m| - |suffix|..] == suffix;
    assert en[..9] == "Could not";
    assert (en + suffix)[..9] == en[..9];
    assert es[8] == 'd';
    assert (es + suffix)[8] == es[8];
    DiffersAt(es + suffix, "Could not", 8);
    m
  }

  /** The message of the error thrown when the outline cannot be generated. */
  function OutlineErrorMessage(lang: string): (m: string)
    ensures m != []
    ensures IsEnglish(lang) <==> StartsWith(m, "Could not")
  {
    var en := "Could not generate the book outline." + " Please check the console for more details.";
    var es := "No se pudo generar la estructura del libro." + " Por favor, revisa la consola para más detalles.";
    assert en[..9] == "Could not";
    assert es[..9][0] == es[0] == 'N';
    if IsEnglish(lang) then en else es
  }

  /** `const [rawTexto, referenciasStr] = content.split(sep)`: the text
      before the first separator, and the text between the first and the
      second separator if there is a separator at all. */
  function SplitResponse(content: string, sep: string): (r: (string, Option<string>))
    requires sep != []
    ensures r.1.None? <==> forall i :: !OccursAt(content, sep, i)
    ensures r.1.None? ==> r.0 == content
    ensures r.1.Some? ==>
      && OccursAt(content, sep, |r.0|) && r.0 == content[..|r.0|]
      && (forall i :: i < |r.0| ==> !OccursAt(content, sep, i))
      && var rest := content[|r.0| + |sep|..];
         StartsWith(rest, r.1.value)
         && (|r.1.value| == |rest| || OccursAt(rest, sep, |r.1.value|))
         && (forall i :: i < |r.1.value| ==> !OccursAt(rest, sep, i))
  {
    var parts := Split(content, sep);
    match IndexFrom(content, sep, 0)
    case None => (parts[0], None)
    case Some(i) =>
      var rest := content[i + |sep|..];
      assert parts[1..] == Split(rest, sep);
      assert parts[1] == Split(rest, sep)[0];
      FirstPiece(rest, sep);
      (parts[0], Some(parts[1]))
  }

  /** The first piece of a split runs up to the first separator. */
  lemma FirstPiece(s: string, sep: string)
    requires sep != []
    ensures var p := Split(s, sep)[0];
            StartsWith(s, p) && (|p| == |s| || OccursAt(s, sep, |p|))
            && forall i :: i < |p| ==> !OccursAt(s, sep, i)
  {
  }

  /** The reference lines after the separator: nothing when there is no
      separator or nothing after it; otherwise the lines of the trimmed
      text, verbatim, without the blank ones. */
  function ParseReferences(block: Option<string>): (refs: seq<string>)
    ensures block.None? ==> refs == []
    ensures forall r :: r in refs ==> !AllSpace(r) && '\n' !in r
    ensures block.Some? ==> forall r :: r in refs <==> r in Lines(Trim(block.value)) && !AllSpace(r)
    ensures block.Some? ==> refs == NonBlank(Lines(Trim(block.value)))
  {
    match block
    case None => []
    case Some(b) =>
      var lines := Lines(Trim(b));
      SplitPiecesFree(Trim(b), "\n");
      assert forall l :: l in lines ==> '\n' !in l by {
        forall l, k | l in lines && 0 <= k < |l| ensures l[k] != '\n' {
          assert !OccursAt(l, "\n", k);
        }
      }
      if b == [] then [] else NonBlank(lines)
  }

  /** What the model returned for one section: its text and the web
      sources the search grounding reported. */
  datatype ApiResponse = ApiResponse(text: string, groundingChunks: seq<GroundingChunk>)

  /** What `generateSectionContent` returns. */
  datatype SectionReply = SectionReply(texto: string, referencias: seq<string>, fuentes: seq<GroundingChunk>)

  /** `generateSectionContent` after the request: an absent response is a
      failed call, reported with the localized message naming the section;
      otherwise the body before the separator is cleaned and the reference
      lines after it are collected. */
  function GenerateSectionContent(response: Option<ApiResponse>, sectionTitle: string, lang: string): (r: Result<SectionReply>)
    ensures response.None? <==> r.Err?
    ensures r.Err? ==> r.message == SectionErrorMessage(lang, sectionTitle)
    ensures r.Ok? ==> Trimmed(r.value.texto) && r.value.fuentes == response.value.groundingChunks
    ensures r.Ok? ==> forall x :: x in r.value.referencias ==> !AllSpace(x) && '\n' !in x
    ensures r.Ok? ==>
              var (raw, block) := SplitResponse(response.value.text, ReferenceSeparator(lang));
              r.value.texto == CleanGeneratedText(raw, sectionTitle) && r.value.referencias == ParseReferences(block)
    ensures r.Ok? && (forall i :: !OccursAt(response.value.text, ReferenceSeparator(lang), i)) ==>
              r.value.referencias == [] && r.value.texto == CleanGeneratedText(response.value.text, sectionTitle)
  {
    match response
    case None => Err(SectionErrorMessage(lang, sectionTitle))
    case Some(resp) =>
      var (raw, block) := SplitResponse(resp.text, ReferenceSeparator(lang));
      Ok(SectionReply(CleanGeneratedText(raw, sectionTitle), ParseReferences(block), resp.groundingChunks))
  }

  /** `generateBookOutline` after the request: the parsed outline, or the
      localized error. */
  function GenerateBookOutline(response: Option<BookOutline>, lang: string): (r: Result<BookOutline>)
    ensures r.Ok? <==> response.Some?
    ensures r.Ok? ==> r.value == response.value
    ensures r.Err? ==> r.message == OutlineErrorMessage(lang)
  {
    match response
    case None => Err(OutlineErrorMessage(lang))
    case Some(o) => Ok(o)
  }
}
