/** The Word export (services/docxService.ts): each text line becomes a
    heading or a paragraph of bold, italic and plain runs, and the book
    becomes an ordered list of paragraphs. Paragraphs and runs are values
    here; the document library that lays them out is not modelled. */
module Docx {
  import opened Wrappers
  import opened Strings
  import opened Sorting
  import opened Types
  import opened Export

  datatype Style = Heading1 | Heading2 | Heading3

  /** A `TextRun`: its text and whether it is bold or italic. */
  datatype Run = Run(text: string, bold: bool, italics: bool)

  /** The paragraphs the exporter creates: a styled heading, a `normal`
      paragraph made of runs, a page break, or a `reference` entry. */
  datatype Paragraph =
    | StyledHeading(style: Style, text: string)
    | Body(runs: seq<Run>)
    | PageBreak
    | Reference(text: string)

  /** The characters `.` does not match. */
  predicate IsLineTerminator(c: char) {
    c == '\n' || c == '\r' || c == '\U{2028}' || c == '\U{2029}'
  }

  /** The lazy `.*?\*` from index `j`: the first `*` with no line
      terminator before it. */
  function FindStar(s: string, j: nat): (r: Option<nat>)
    ensures r.Some? ==> j <= r.value < |s| && s[r.value] == '*'
    ensures r.Some? ==> forall i :: j <= i < r.value ==> s[i] != '*' && !IsLineTerminator(s[i])
    decreases |s| - j
  {
    if j >= |s| then None
    else if s[j] == '*' then Some(j)
    else if IsLineTerminator(s[j]) then None
    else FindStar(s, j + 1)
  }

  /** The lazy `.*?\*\*` from index `j`: the first `**` with no line
      terminator before it. */
  function FindDoubleStar(s: string, j: nat): (r: Option<nat>)
    ensures r.Some? ==> j <= r.value && r.value + 2 <= |s| && s[r.value] == '*' && s[r.value + 1] == '*'
    ensures r.Some? ==> forall i :: j <= i < r.value ==> !IsLineTerminator(s[i]) && !(s[i] == '*' && s[i + 1] == '*')
    decreases |s| - j
  {
    if j + 1 < |s| && s[j] == '*' && s[j + 1] == '*' then Some(j)
    else if j >= |s| || IsLineTerminator(s[j]) then None
    else FindDoubleStar(s, j + 1)
  }

  /** Where a match of `\*\*.*?\*\*|\*.*?\*` starting at `i` ends: the
      bold alternative is tried first. */
  function MatchAt(s: string, i: nat): (r: Option<nat>)
    ensures r.Some? ==> i + 2 <= r.value <= |s| && s[i] == '*' && s[r.value - 1] == '*'
  {
    if i + 1 < |s| && s[i] == '*' && s[i + 1] == '*' && FindDoubleStar(s, i + 2).Some? then
      Some(FindDoubleStar(s, i + 2).value + 2)
    else if i < |s| && s[i] == '*' && FindStar(s, i + 1).Some? then
      Some(FindStar(s, i + 1).value + 1)
    else None
  }

  /** The leftmost match at or after `from`, as `(start, end)`. */
  function NextMatch(s: string, from: nat): (r: Option<(nat, nat)>)
    ensures r.Some? ==> from <= r.value.0 && MatchAt(s, r.value.0) == Some(r.value.1)
    ensures forall i :: from <= i && (r.None? || i < r.value.0) ==> MatchAt(s, i).None?
    decreases |s| - from
  {
    if from >= |s| then None
    else match MatchAt(s, from)
      case Some(e) => Some((from, e))
      case None => NextMatch(s, from + 1)
  }

  function Concat(parts: seq<string>): string {
    if parts == [] then [] else parts[0] + Concat(parts[1..])
  }

  lemma CutTwice(s: string, a: nat, b: nat, c: nat)
    requires a <= b <= c <= |s|
    ensures s[a..] == s[a..b] + (s[b..c] + s[c..])
  {
  }

  /** `s.slice(from).split(/(\*\*.*?\*\*|\*.*?\*)/)`: the text between
      matches alternating with the matches themselves (the capture group
      keeps them), ending with the text after the last match. */
  function Pieces(s: string, from: nat): (ps: seq<string>)
    requires from <= |s|
    ensures |ps| >= 1 && Concat(ps) == s[from..]
    decreases |s| - from
  {
    match NextMatch(s, from)
    case None => [s[from..]]
    case Some((q, e)) =>
      var rest := Pieces(s, e);
      CutTwice(s, from, q, e);
      [s[from..q], s[q..e]] + rest
  }

  /** `.filter(p => p)`: the non-empty pieces, in order. */
  function NonEmpty(ps: seq<string>): (r: seq<string>)
    ensures forall i :: 0 <= i < |r| ==> r[i] != []
    ensures Concat(r) == Concat(ps)
    ensures |r| <= |ps|
  {
    if ps == [] then []
    else if ps[0] == [] then NonEmpty(ps[1..])
    else
      var r := [ps[0]] + NonEmpty(ps[1..]);
      assert r[1..] == NonEmpty(ps[1..]);
      r
  }

  /** The pieces of a trimmed line that become runs. */
  function Parts(t: string): (ps: seq<string>)
    ensures Concat(ps) == t
    ensures forall i :: 0 <= i < |ps| ==> ps[i] != []
  {
    NonEmpty(Pieces(t, 0))
  }

  /** `part.slice(a, -b)`: empty when the two cuts overlap. */
  function SliceInner(part: string, a: nat, b: nat): (r: string)
    ensures a + b <= |part| ==> part == part[..a] + r + part[|part| - b..]
    ensures a + b > |part| ==> r == []
  {
    if a + b <= |part| then part[a..|part| - b] else []
  }

  /** One piece as a run: bold between `**`, else italic between `*`,
      else plain. */
  function ClassifyPart(part: string): (r: Run)
    ensures r.bold <==> StartsWith(part, "**") && EndsWith(part, "**")
    ensures r.italics <==> !r.bold && StartsWith(part, "*") && EndsWith(part, "*")
    ensures r.bold && |part| >= 4 ==> part == "**" + r.text + "**"
    ensures r.italics && |part| >= 2 ==> part == "*" + r.text + "*"
    ensures (r.bold && |part| < 4) || (r.italics && |part| < 2) ==> r.text == []
    ensures !r.bold && !r.italics ==> r.text == part
  {
    if StartsWith(part, "**") && EndsWith(part, "**") then
      var inner := SliceInner(part, 2, 2);
      assert |part| >= 4 ==> part[..2] == "**" && part[|part| - 2..] == "**";
      Run(inner, true, false)
    else if StartsWith(part, "*") && EndsWith(part, "*") then
      var inner := SliceInner(part, 1, 1);
      assert |part| >= 2 ==> part[..1] == "*" && part[|part| - 1..] == "*";
      Run(inner, false, true)
    else Run(part, false, false)
  }

  /** The runs of a list of pieces, in order. */
  function Runs(parts: seq<string>): (rs: seq<Run>)
    ensures |rs| == |parts|
  {
    if parts == [] then [] else Runs(parts[..|parts| - 1]) + [ClassifyPart(parts[|parts| - 1])]
  }

  lemma {:induction false} RunsAt(parts: seq<string>, i: nat)
    requires i < |parts|
    ensures Runs(parts)[i] == ClassifyPart(parts[i])
    decreases |parts|
  {
    if i < |parts| - 1 {
      RunsAt(parts[..|parts| - 1], i);
    }
  }

  /** `createStyledParagraphFromLine`, as a function of the line. */
  function LineParagraph(line: string): (p: Paragraph)
    ensures p != PageBreak && !p.Reference?
  {
    var t := Trim(line);
    if StartsWith(t, "# ") then StyledHeading(Heading1, t[2..])
    else if StartsWith(t, "## ") then StyledHeading(Heading2, t[3..])
    else if StartsWith(t, "### ") then StyledHeading(Heading3, t[4..])
    else Body(Runs(Parts(t)))
  }

  /** `createStyledParagraphFromLine`: the heading checks, then the runs
      of the pieces of the line. */
  method CreateStyledParagraphFromLine(line: string) returns (p: Paragraph)
    ensures p == LineParagraph(line)
  {
    var t := Trim(line);
    if StartsWith(t, "# ") {
      return StyledHeading(Heading1, t[2..]);
    }
    if StartsWith(t, "## ") {
      return StyledHeading(Heading2, t[3..]);
    }
    if StartsWith(t, "### ") {
      return StyledHeading(Heading3, t[4..]);
    }
    var runs := PushRuns(Parts(t));
    return Body(runs);
  }

  /** The loop over the pieces: one run pushed per piece, in order. */
  method PushRuns(parts: seq<string>) returns (runs: seq<Run>)
    ensures runs == Runs(parts)
  {
    runs := [];
    for i := 0 to |parts|
      invariant runs == Runs(parts[..i])
    {
      assert parts[..i + 1][..i] == parts[..i];
      runs := runs + [ClassifyPart(parts[i])];
    }
    assert parts[..|parts|] == parts;
  }

  /** A trimmed line is a heading exactly when it starts with `# `, `## `
      or `### `, and the heading text is what follows that marker. */
  lemma HeadingIff(line: string)
    ensures var t := Trim(line);
      && (LineParagraph(line).StyledHeading? <==> StartsWith(t, "# ") || StartsWith(t, "## ") || StartsWith(t, "### "))
      && (StartsWith(t, "# ") ==> LineParagraph(line) == StyledHeading(Heading1, t[2..]))
      && (StartsWith(t, "## ") ==> LineParagraph(line) == StyledHeading(Heading2, t[3..]))
      && (StartsWith(t, "### ") ==> LineParagraph(line) == StyledHeading(Heading3, t[4..]))
  {
    var t := Trim(line);
    if StartsWith(t, "## ") {
      StartsWithAt(t, "## ", 1);
      DiffersAt(t, "# ", 1);
    }
    if StartsWith(t, "### ") {
      StartsWithAt(t, "### ", 1);
      StartsWithAt(t, "### ", 2);
      DiffersAt(t, "# ", 1);
      DiffersAt(t, "## ", 2);
    }
  }

  /** Four or more `#`, or a `#` followed by anything but a space or
      another `#`, give a normal paragraph. */
  lemma NotAHeading(line: string)
    requires var t := Trim(line);
      && |t| >= 2 && t[0] == '#'
      && ((t[1] != ' ' && t[1] != '#') || (|t| >= 4 && t[1] == '#' && t[2] == '#' && t[3] == '#'))
    ensures LineParagraph(line).Body?
  {
    var t := Trim(line);
    DiffersAt(t, "# ", 1);
    if t[1] == '#' {
      DiffersAt(t, "## ", 2);
      DiffersAt(t, "### ", 3);
    } else {
      DiffersAt(t, "## ", 1);
      DiffersAt(t, "### ", 1);
    }
  }

  /** A body line is split into pieces that are never empty and that
      together spell the trimmed line; each run comes from one piece. */
  lemma BodyRunsCoverLine(line: string)
    requires LineParagraph(line).Body?
    ensures var t := Trim(line); var ps := Parts(t);
      && Concat(ps) == t
      && |LineParagraph(line).runs| == |ps|
      && forall i :: 0 <= i < |ps| ==> ps[i] != [] && LineParagraph(line).runs[i] == ClassifyPart(ps[i])
  {
    var ps := Parts(Trim(line));
    forall i | 0 <= i < |ps| ensures LineParagraph(line).runs[i] == ClassifyPart(ps[i]) {
      RunsAt(ps, i);
    }
  }

  /** A line without `*` is one plain run holding the trimmed line. */
  lemma PlainLine(line: string)
    requires var t := Trim(line); t != [] && '*' !in t && !LineParagraph(line).StyledHeading?
    ensures LineParagraph(line) == Body([Run(Trim(line), false, false)])
  {
    var t := Trim(line);
    NoStarNoMatch(t, 0);
    assert t[0..] == t;
    assert Pieces(t, 0) == [t];
    assert NonEmpty([t]) == [t] + NonEmpty([]);
    assert Runs([t]) == Runs([]) + [ClassifyPart(t)];
    assert !StartsWith(t, "*") by { assert t[0] != '*'; }
  }

  lemma {:induction false} NoStarNoMatch(s: string, from: nat)
    requires from <= |s| && '*' !in s
    ensures NextMatch(s, from) == None
    decreases |s| - from
  {
    if from < |s| {
      assert s[from] != '*';
      NoStarNoMatch(s, from + 1);
    }
  }

  /** A line that is one bold span holds one bold run with its inner text. */
  lemma BoldLine(w: string)
    requires w != [] && '*' !in w && forall i :: 0 <= i < |w| ==> !IsLineTerminator(w[i])
    ensures LineParagraph("**" + w + "**") == Body([Run(w, true, false)])
  {
    var t := "**" + w + "**";
    StarLineIsBody(t);
    BoldParts(w);
    BoldPart(w);
    assert Runs([t]) == Runs([]) + [ClassifyPart(t)];
  }

  /** A line that starts and ends with `*` is its own trimmed form and no
      heading. */
  lemma StarLineIsBody(t: string)
    requires t != [] && t[0] == '*' && t[|t| - 1] == '*'
    ensures LineParagraph(t) == Body(Runs(Parts(t)))
  {
    assert Trim(t) == t;
    DiffersAt(t, "# ", 0);
    DiffersAt(t, "## ", 0);
    DiffersAt(t, "### ", 0);
  }

  /** The bold span is the only piece of its line. */
  lemma BoldParts(w: string)
    requires '*' !in w && forall i :: 0 <= i < |w| ==> !IsLineTerminator(w[i])
    ensures Parts("**" + w + "**") == ["**" + w + "**"]
  {
    var t := "**" + w + "**";
    BoldMatch(w);
    assert Pieces(t, |t|) == [[]];
    assert t[0..0] == [] && t[0..|t|] == t;
    assert Pieces(t, 0) == [[], t, []];
    NonEmptyAround(t);
  }

  lemma BoldMatch(w: string)
    requires '*' !in w && forall i :: 0 <= i < |w| ==> !IsLineTerminator(w[i])
    ensures NextMatch("**" + w + "**", 0) == Some((0, |w| + 4))
  {
    var t := "**" + w + "**";
    assert forall i :: 2 <= i < |t| - 2 ==> t[i] == w[i - 2];
    DoubleStarAt(t, 2, |t| - 2);
    assert MatchAt(t, 0) == Some(|t|);
  }

  lemma NonEmptyAround(t: string)
    requires t != []
    ensures NonEmpty([[], t, []]) == [t]
  {
    assert [[], t, []][1..] == [t, []];
    assert [t, []][1..] == [[]];
    assert NonEmpty([[]]) == [];
  }

  lemma BoldPart(w: string)
    ensures ClassifyPart("**" + w + "**") == Run(w, true, false)
  {
    var t := "**" + w + "**";
    assert t[..2] == "**" && t[|t| - 2..] == "**";
    assert t[2..|t| - 2] == w;
  }

  lemma {:induction false} DoubleStarAt(s: string, j: nat, k: nat)
    requires j <= k && k + 2 == |s| && s[k] == '*' && s[k + 1] == '*'
    requires forall i :: j <= i < k ==> s[i] != '*' && !IsLineTerminator(s[i])
    ensures FindDoubleStar(s, j) == Some(k)
    decreases k - j
  {
    if j < k {
      DoubleStarAt(s, j + 1, k);
    }
  }

  /** The paragraphs of each line, in order. */
  function LinesParagraphs(lines: seq<string>): (ps: seq<Paragraph>)
    ensures |ps| == |lines|
  {
    if lines == [] then [] else LinesParagraphs(lines[..|lines| - 1]) + [LineParagraph(lines[|lines| - 1])]
  }

  lemma LinesParagraphsStep(lines: seq<string>, i: nat)
    requires i < |lines|
    ensures LinesParagraphs(lines[..i + 1]) == LinesParagraphs(lines[..i]) + [LineParagraph(lines[i])]
  {
    assert lines[..i + 1][..i] == lines[..i];
  }

  /** The i-th paragraph is made from the i-th line. */
  lemma LinesParagraphsAt(lines: seq<string>)
    ensures forall i :: 0 <= i < |lines| ==> LinesParagraphs(lines)[i] == LineParagraph(lines[i])
  {
    forall i | 0 <= i < |lines| ensures LinesParagraphs(lines)[i] == LineParagraph(lines[i]) {
      LinesParagraphsIndex(lines, i);
    }
  }

  lemma {:induction false} LinesParagraphsIndex(lines: seq<string>, i: nat)
    requires i < |lines|
    ensures LinesParagraphs(lines)[i] == LineParagraph(lines[i])
    decreases |lines|
  {
    var init, last := lines[..|lines| - 1], lines[|lines| - 1];
    var ps, p := LinesParagraphs(init), LineParagraph(last);
    assert LinesParagraphs(lines) == ps + [p];
    if i < |init| {
      LinesParagraphsIndex(init, i);
      assert (ps + [p])[i] == ps[i];
      assert lines[i] == init[i];
    }
  }

  /** `text.split('\n').filter(line => line.trim())`, one paragraph per
      remaining line, in the order of the lines. */
  function TextParagraphs(text: string): (ps: seq<Paragraph>)
    ensures |ps| == |NonBlank(Lines(text))|
    ensures forall i :: 0 <= i < |ps| ==> ps[i] == LineParagraph(NonBlank(Lines(text))[i])
  {
    LinesParagraphsAt(NonBlank(Lines(text)));
    LinesParagraphs(NonBlank(Lines(text)))
  }

  /** A section: its title as a second-level heading, then its lines. */
  function SectionParagraphs(sec: SectionContent): seq<Paragraph> {
    [StyledHeading(Heading2, sec.titulo)] + TextParagraphs(sec.texto)
  }

  function SectionsParagraphs(secs: seq<SectionContent>): seq<Paragraph> {
    if secs == [] then []
    else SectionsParagraphs(secs[..|secs| - 1]) + SectionParagraphs(secs[|secs| - 1])
  }

  lemma SectionsParagraphsStep(secs: seq<SectionContent>, j: nat)
    requires j < |secs|
    ensures SectionsParagraphs(secs[..j + 1]) == SectionsParagraphs(secs[..j]) + SectionParagraphs(secs[j])
  {
    assert secs[..j + 1][..j] == secs[..j];
  }

  /** The paragraphs of the chapter at 1-based position `k`: a page break,
      the numbered chapter heading, then its sections if it has any. */
  function ChapterParagraphs(lang: string, k: nat, ch: Chapter): seq<Paragraph> {
    [PageBreak, StyledHeading(Heading1, ChapterHeading(lang, k, ch.titulo))]
      + (match ch.contenido case None => [] case Some(secs) => SectionsParagraphs(secs))
  }

  function ChaptersParagraphs(lang: string, caps: seq<Chapter>): seq<Paragraph> {
    if caps == [] then []
    else ChaptersParagraphs(lang, caps[..|caps| - 1]) + ChapterParagraphs(lang, |caps|, caps[|caps| - 1])
  }

  lemma ChaptersParagraphsStep(lang: string, caps: seq<Chapter>, i: nat)
    requires i < |caps|
    ensures ChaptersParagraphs(lang, caps[..i + 1]) == ChaptersParagraphs(lang, caps[..i]) + ChapterParagraphs(lang, i + 1, caps[i])
  {
    assert caps[..i + 1][..i] == caps[..i];
  }

  /** One `reference` paragraph per entry, links stripped, in order. */
  function ReferenceEntries(sorted: seq<string>): (ps: seq<Paragraph>)
    ensures |ps| == |sorted|
  {
    if sorted == [] then []
    else ReferenceEntries(sorted[..|sorted| - 1]) + [Reference(StripLinks(sorted[|sorted| - 1]))]
  }

  lemma ReferenceEntriesStep(sorted: seq<string>, k: nat)
    requires k < |sorted|
    ensures ReferenceEntries(sorted[..k + 1]) == ReferenceEntries(sorted[..k]) + [Reference(StripLinks(sorted[k]))]
  {
    assert sorted[..k + 1][..k] == sorted[..k];
  }

  lemma {:induction false} ReferenceEntriesAt(sorted: seq<string>)
    ensures forall i :: 0 <= i < |sorted| ==> ReferenceEntries(sorted)[i] == Reference(StripLinks(sorted[i]))
    decreases |sorted|
  {
    if sorted != [] {
      ReferenceEntriesAt(sorted[..|sorted| - 1]);
    }
  }

  /** The reference page: absent for an empty list; otherwise a page
      break, the localized heading and one entry per reference, sorted and
      with links stripped. */
  function ReferencePage(lang: string, refs: seq<string>): (ps: seq<Paragraph>)
    ensures ps == [] <==> refs == []
    ensures ps != [] ==>
      && |ps| == |refs| + 2
      && ps[0] == PageBreak && ps[1] == StyledHeading(Heading1, ReferencesTitle(lang))
      && forall i :: 0 <= i < |refs| ==> ps[i + 2] == Reference(PreparedReferences(refs)[i])
  {
    var sorted := Sort(refs);
    if |sorted| == 0 then []
    else
      ReferenceEntriesAt(sorted);
      [PageBreak, StyledHeading(Heading1, ReferencesTitle(lang))] + ReferenceEntries(sorted)
  }

  /** The book title, the page break and heading of the introduction, and
      the introduction's lines. */
  function FrontParagraphs(book: GeneratedBook): seq<Paragraph> {
    [StyledHeading(Heading1, book.titulo), PageBreak, StyledHeading(Heading1, book.introduccion.titulo)]
      + TextParagraphs(book.introduccion.texto)
  }

  function ConclusionParagraphs(book: GeneratedBook): seq<Paragraph> {
    [PageBreak, StyledHeading(Heading1, book.conclusion.titulo)] + TextParagraphs(book.conclusion.texto)
  }

  /** The paragraph list of `exportToDocx`. */
  function DocxParagraphs(book: GeneratedBook): seq<Paragraph> {
    FrontParagraphs(book)
      + ChaptersParagraphs(book.outputLanguage, book.capitulos)
      + ConclusionParagraphs(book)
      + ReferencePage(book.outputLanguage, book.referencias)
  }

  /** Pushes one paragraph per line, in order. */
  method PushLines(children: seq<Paragraph>, lines: seq<string>) returns (out: seq<Paragraph>)
    ensures out == children + LinesParagraphs(lines)
  {
    out := children;
    for i := 0 to |lines|
      invariant out == children + LinesParagraphs(lines[..i])
    {
      var p := CreateStyledParagraphFromLine(lines[i]);
      LinesParagraphsStep(lines, i);
      out := out + [p];
    }
    assert lines[..|lines|] == lines;
  }

  /** Pushes one paragraph per non-blank line of `text`. */
  method PushTextLines(children: seq<Paragraph>, text: string) returns (out: seq<Paragraph>)
    ensures out == children + TextParagraphs(text)
  {
    out := PushLines(children, NonBlank(Lines(text)));
  }

  /** Pushes a section's heading and lines. */
  method PushSection(children: seq<Paragraph>, sec: SectionContent) returns (out: seq<Paragraph>)
    ensures out == children + SectionParagraphs(sec)
  {
    out := PushTextLines(children + [StyledHeading(Heading2, sec.titulo)], sec.texto);
  }

  /** Pushes each section, in order. */
  method PushSections(children: seq<Paragraph>, secs: seq<SectionContent>) returns (out: seq<Paragraph>)
    ensures out == children + SectionsParagraphs(secs)
  {
    out := children;
    for j := 0 to |secs|
      invariant out == children + SectionsParagraphs(secs[..j])
    {
      SectionsParagraphsStep(secs, j);
      AppendAssoc(children, SectionsParagraphs(secs[..j]), SectionParagraphs(secs[j]));
      out := PushSection(out, secs[j]);
    }
    assert secs[..|secs|] == secs;
  }

  /** Pushes one chapter: page break, numbered heading, sections. */
  method PushChapter(children: seq<Paragraph>, lang: string, k: nat, ch: Chapter) returns (out: seq<Paragraph>)
    ensures out == children + ChapterParagraphs(lang, k, ch)
  {
    out := children + [PageBreak, StyledHeading(Heading1, ChapterHeading(lang, k, ch.titulo))];
    if ch.contenido.Some? {
      AppendAssoc(children, [PageBreak, StyledHeading(Heading1, ChapterHeading(lang, k, ch.titulo))], SectionsParagraphs(ch.contenido.value));
      out := PushSections(out, ch.contenido.value);
    }
  }

  /** Pushes each chapter with its 1-based number, in order. */
  method PushChapters(children: seq<Paragraph>, lang: string, caps: seq<Chapter>) returns (out: seq<Paragraph>)
    ensures out == children + ChaptersParagraphs(lang, caps)
  {
    out := children;
    for i := 0 to |caps|
      invariant out == children + ChaptersParagraphs(lang, caps[..i])
    {
      ChaptersParagraphsStep(lang, caps, i);
      AppendAssoc(children, ChaptersParagraphs(lang, caps[..i]), ChapterParagraphs(lang, i + 1, caps[i]));
      out := PushChapter(out, lang, i + 1, caps[i]);
    }
    assert caps[..|caps|] == caps;
  }

  /** Pushes the reference page when the sorted list is not empty. */
  method PushReferences(children: seq<Paragraph>, lang: string, refs: seq<string>) returns (out: seq<Paragraph>)
    ensures out == children + ReferencePage(lang, refs)
  {
    out := children;
    var sorted := Sort(refs);
    if |sorted| > 0 {
      out := out + [PageBreak, StyledHeading(Heading1, ReferencesTitle(lang))];
      var head := out;
      for k := 0 to |sorted|
        invariant out == head + ReferenceEntries(sorted[..k])
      {
        ReferenceEntriesStep(sorted, k);
        AppendAssoc(head, ReferenceEntries(sorted[..k]), [Reference(StripLinks(sorted[k]))]);
        out := out + [Reference(StripLinks(sorted[k]))];
      }
      assert sorted[..|sorted|] == sorted;
      AppendAssoc(children, [PageBreak, StyledHeading(Heading1, ReferencesTitle(lang))], ReferenceEntries(sorted));
    }
  }

  /** `exportToDocx`: builds the paragraph list by pushing, chapter by
      chapter and section by section, and names the download. */
  method ExportToDocx(book: GeneratedBook) returns (children: seq<Paragraph>, fileName: string)
    ensures children == DocxParagraphs(book)
    ensures fileName == FileName(book.titulo, ".docx")
  {
    var lang := book.outputLanguage;
    children := [StyledHeading(Heading1, book.titulo), PageBreak, StyledHeading(Heading1, book.introduccion.titulo)];
    children := PushTextLines(children, book.introduccion.texto);
    ghost var front := children;
    children := PushChapters(children, lang, book.capitulos);
    ghost var middle := children;
    children := children + [PageBreak, StyledHeading(Heading1, book.conclusion.titulo)];
    children := PushTextLines(children, book.conclusion.texto);
    ghost var end := children;
    children := PushReferences(children, lang, book.referencias);
    assert children == DocxParagraphs(book) by {
      assert end == middle + ConclusionParagraphs(book) by {
        AppendAssoc(middle, [PageBreak, StyledHeading(Heading1, book.conclusion.titulo)], TextParagraphs(book.conclusion.texto));
      }
    }
    fileName := FileName(book.titulo, ".docx");
  }
}
