/** Writing a whole book from an approved outline (App.tsx
    `handleGenerateBook`): the introduction, every section of every chapter
    in order and the conclusion are requested one at a time from the
    section service; the first failure stops the run. The service is a
    parameter: `writer(k, request)` is the outcome of the k-th call. */
module Generation {
  import opened Wrappers
  import opened Strings
  import opened Types
  import opened Gemini
  import opened Words

  /** The settings chosen on the first screen. */
  datatype Params = Params(
    publicationType: string,
    tone: string,
    audience: string,
    numChapters: nat,
    wordCountTarget: nat,
    outputLanguage: string,
    fileContent: string)

  /** The arguments of one call to the section writer. */
  datatype WriteRequest = WriteRequest(
    bookTopic: string,
    chapterTitle: string,
    sectionTitle: string,
    publicationType: string,
    tone: string,
    audience: string,
    wordsPerSection: nat,
    outputLanguage: string,
    fileContent: string)

  /** A value of the progress bar. `Share(d, t)` is `(d / t) * 100` percent,
      kept as the exact fraction. */
  datatype Progress = Percent(n: nat) | Share(done: nat, total: nat)

  /** The bar is not yet full. */
  predicate BelowFull(p: Progress) {
    match p
    case Percent(n) => n < 100
    case Share(d, t) => d < t
  }

  /** The section service (`generateSectionContent`): the outcome of the
      k-th call of a run, a written section or the error it throws. */
  type Writer = (nat, WriteRequest) -> Result<SectionReply>

  /** Sections of the first `n` chapters (the `reduce` over the chapters). */
  function SectionsBefore(caps: seq<Chapter>, n: nat): nat
    requires n <= |caps|
  {
    if n == 0 then 0 else SectionsBefore(caps, n - 1) + |caps[n - 1].secciones|
  }

  /** The count of sections in the first `a` chapters never exceeds the count
      in the first `b`, by at least the sections of chapter `a`. */
  lemma {:induction false} SectionsBeforeGrow(caps: seq<Chapter>, a: nat, b: nat)
    requires a < b <= |caps|
    ensures SectionsBefore(caps, a) + |caps[a].secciones| <= SectionsBefore(caps, b)
    decreases b
  {
    if b > a + 1 {
      SectionsBeforeGrow(caps, a, b - 1);
    }
  }

  /** Every section, plus the introduction and the conclusion. */
  function TotalSections(outline: BookOutline): (t: nat)
    ensures t >= 2
  {
    SectionsBefore(outline.capitulos, |outline.capitulos|) + 2
  }

  /** `Math.round(a / b)`: the integer nearest to `a / b`, halves rounded up. */
  function RoundedQuotient(a: nat, b: nat): (q: nat)
    requires b > 0
    ensures 2 * q * b <= 2 * a + b < 2 * (q + 1) * b
  {
    var q := (2 * a + b) / (2 * b);
    assert 2 * a + b == q * (2 * b) + (2 * a + b) % (2 * b);
    q
  }

  /** The length asked of every section: the word target shared equally.
      The count of units is never zero, so the division always happens. */
  function WordsPerSection(outline: BookOutline, target: nat): (w: nat)
    ensures var t := TotalSections(outline); 2 * w * t <= 2 * target + t < 2 * (w + 1) * t
  {
    RoundedQuotient(target, TotalSections(outline))
  }

  /** One unit to write: the introduction, section `section` of chapter
      `chapter`, or the conclusion. */
  datatype Slot = IntroSlot | SectionSlot(chapter: nat, section: nat) | ConclusionSlot

  /** The sections of the first `n` chapters, chapter by chapter, each in
      order. */
  function ChapterSlots(caps: seq<Chapter>, n: nat): (slots: seq<Slot>)
    requires n <= |caps|
    ensures |slots| == SectionsBefore(caps, n)
  {
    if n == 0 then []
    else ChapterSlots(caps, n - 1) + seq(|caps[n - 1].secciones|, j requires 0 <= j => SectionSlot(n - 1, j))
  }

  /** Unit `s`, at index `k` of the sections of the first `n` chapters, is
      section `s.section` of chapter `s.chapter`, and `k` is its place. */
  predicate PlacedAt(caps: seq<Chapter>, n: nat, s: Slot, k: nat) {
    && s.SectionSlot?
    && s.chapter < n <= |caps|
    && s.section < |caps[s.chapter].secciones|
    && k == SectionsBefore(caps, s.chapter) + s.section
  }

  /** Section `j` of chapter `i` sits at `SectionsBefore(caps, i) + j`. */
  lemma {:induction false} ChapterSlotsLayout(caps: seq<Chapter>, n: nat)
    requires n <= |caps|
    ensures forall k :: 0 <= k < |ChapterSlots(caps, n)| ==> PlacedAt(caps, n, ChapterSlots(caps, n)[k], k)
  {
    if n > 0 {
      ChapterSlotsLayout(caps, n - 1);
      var before := ChapterSlots(caps, n - 1);
      var here := seq(|caps[n - 1].secciones|, j requires 0 <= j => SectionSlot(n - 1, j));
      var slots := ChapterSlots(caps, n);
      assert slots == before + here;
      forall k | 0 <= k < |slots| ensures PlacedAt(caps, n, slots[k], k) {
        if k < |before| {
          assert slots[k] == before[k] && PlacedAt(caps, n - 1, before[k], k);
        } else {
          assert slots[k] == here[k - |before|];
        }
      }
    }
  }

  /** All units of the book, in the order they are written. */
  function Slots(outline: BookOutline): (slots: seq<Slot>)
    ensures |slots| == TotalSections(outline)
  {
    [IntroSlot] + ChapterSlots(outline.capitulos, |outline.capitulos|) + [ConclusionSlot]
  }

  /** The introduction comes first, the conclusion last, and every other
      unit is a chapter section at its place in chapter order. */
  lemma SlotsLayout(outline: BookOutline)
    ensures var slots := Slots(outline); var caps := outline.capitulos;
      && slots[0] == IntroSlot
      && slots[|slots| - 1] == ConclusionSlot
      && forall k :: 0 < k < |slots| - 1 ==>
          && slots[k].SectionSlot?
          && slots[k].chapter < |caps|
          && slots[k].section < |caps[slots[k].chapter].secciones|
          && k == 1 + SectionsBefore(caps, slots[k].chapter) + slots[k].section
  {
    var cs := ChapterSlots(outline.capitulos, |outline.capitulos|);
    ChapterSlotsLayout(outline.capitulos, |outline.capitulos|);
    forall k | 0 < k < |cs| + 1
      ensures PlacedAt(outline.capitulos, |outline.capitulos|, Slots(outline)[k], k - 1)
    {
      assert Slots(outline)[k] == cs[k - 1];
    }
  }

  /** Section `j` of chapter `i` is written as unit number
      `1 + SectionsBefore(caps, i) + j`. */
  lemma {:induction false} SlotOfSection(outline: BookOutline, i: nat, j: nat)
    requires i < |outline.capitulos| && j < |outline.capitulos[i].secciones|
    ensures var k := 1 + SectionsBefore(outline.capitulos, i) + j;
      k < |Slots(outline)| - 1 && Slots(outline)[k] == SectionSlot(i, j)
  {
    var caps := outline.capitulos;
    var k := 1 + SectionsBefore(caps, i) + j;
    SectionsBeforeGrow(caps, i, |caps|);
    SlotsLayout(outline);
    var s := Slots(outline)[k];
    if s.chapter < i {
      SectionsBeforeGrow(caps, s.chapter, i);
    } else if s.chapter > i {
      SectionsBeforeGrow(caps, i, s.chapter);
    }
  }

  /** A unit names an existing chapter section. */
  predicate ValidSlot(outline: BookOutline, slot: Slot) {
    slot.SectionSlot? ==>
      slot.chapter < |outline.capitulos| && slot.section < |outline.capitulos[slot.chapter].secciones|
  }

  /** The titles of a unit: its chapter's ("Introducción" and "Conclusión"
      for the two ends) and its own. Every unit of `Slots` is valid, so the
      empty pair is never used. */
  function Titles(outline: BookOutline, slot: Slot): (string, string) {
    match slot
    case IntroSlot => ("Introducción", outline.introduccion.titulo)
    case ConclusionSlot => ("Conclusión", outline.conclusion.titulo)
    case SectionSlot(i, j) =>
      if ValidSlot(outline, slot) then (outline.capitulos[i].titulo, outline.capitulos[i].secciones[j])
      else ("", "")
  }

  /** The call made for one unit: the book topic, the unit's titles, the
      style settings and the shared length. */
  function Request(outline: BookOutline, params: Params, slot: Slot): (req: WriteRequest)
    ensures req.bookTopic == outline.titulo
    ensures req.wordsPerSection == WordsPerSection(outline, params.wordCountTarget)
    ensures slot.IntroSlot? ==>
      req.chapterTitle == "Introducción" && req.sectionTitle == outline.introduccion.titulo
    ensures slot.ConclusionSlot? ==>
      req.chapterTitle == "Conclusión" && req.sectionTitle == outline.conclusion.titulo
    ensures slot.SectionSlot? && ValidSlot(outline, slot) ==>
      && req.chapterTitle == outline.capitulos[slot.chapter].titulo
      && req.sectionTitle == outline.capitulos[slot.chapter].secciones[slot.section]
  {
    var (chapterTitle, sectionTitle) := Titles(outline, slot);
    WriteRequest(outline.titulo, chapterTitle, sectionTitle, params.publicationType, params.tone,
      params.audience, WordsPerSection(outline, params.wordCountTarget), params.outputLanguage,
      params.fileContent)
  }

  /** Every call of a complete run, in order. */
  function Requests(outline: BookOutline, params: Params): (reqs: seq<WriteRequest>)
    ensures |reqs| == TotalSections(outline)
  {
    var slots := Slots(outline);
    seq(|slots|, k requires 0 <= k < |slots| => Request(outline, params, slots[k]))
  }

  /** The outcome of the call for unit `k`. */
  function Reply(outline: BookOutline, params: Params, writer: Writer, k: nat): Result<SectionReply>
    requires k < TotalSections(outline)
  {
    writer(k, Requests(outline, params)[k])
  }

  /** A unit as stored in the book: its title and what the writer returned. */
  function Written(title: string, r: SectionReply): SectionContent {
    SectionContent(title, r.texto, r.referencias, r.fuentes)
  }

  /** The empty introduction or conclusion of the skeleton. */
  function Blank(title: string): SectionContent {
    SectionContent(title, "", [], [])
  }

  /** The book before anything is written: the outline's titles, empty
      introduction and conclusion, and every chapter with no written
      sections. */
  function Skeleton(outline: BookOutline, params: Params): GeneratedBook {
    var caps := outline.capitulos;
    GeneratedBook(
      outline.titulo,
      Blank(outline.introduccion.titulo),
      seq(|caps|, i requires 0 <= i < |caps| => caps[i].(contenido := Some([]))),
      Blank(outline.conclusion.titulo),
      [],
      params.outputLanguage)
  }

  /** Stores a written unit: the introduction and conclusion keep their
      titles and take the reply; a section is appended to its chapter's
      written sections under the section's title from the outline. */
  function Place(outline: BookOutline, book: GeneratedBook, slot: Slot, r: SectionReply): GeneratedBook {
    match slot
    case IntroSlot => book.(introduccion := Written(book.introduccion.titulo, r))
    case ConclusionSlot => book.(conclusion := Written(book.conclusion.titulo, r))
    case SectionSlot(i, j) =>
      if i < |book.capitulos| && ValidSlot(outline, slot) then
        var c := book.capitulos[i];
        var c' := c.(contenido := Some(c.contenido.GetOr([]) + [Written(outline.capitulos[i].secciones[j], r)]));
        book.(capitulos := book.capitulos[i := c'])
      else book
  }

  /** Where a run stands: the book so far, the running word total, the
      units completed, the calls made, every value the progress bar was
      given, and the error that stopped the run, if any. */
  datatype Run = Run(
    book: GeneratedBook,
    words: nat,
    completed: nat,
    calls: seq<WriteRequest>,
    progressLog: seq<Progress>,
    failure: Option<string>)

  /** The progress shown once unit `k` is done: the conclusion fills the
      bar; any other unit shows the share of units completed. */
  function ProgressAfter(outline: BookOutline, k: nat): Progress
    requires k < TotalSections(outline)
  {
    if Slots(outline)[k].ConclusionSlot? then Percent(100) else Share(k + 1, TotalSections(outline))
  }

  /** Unit `k` of a run: nothing more happens after a failure; otherwise the
      call is made and either stops the run with the service's error or
      stores the unit, adds its words and advances the progress bar. */
  function Step(outline: BookOutline, params: Params, writer: Writer, run: Run, k: nat): Run
    requires k < TotalSections(outline)
  {
    if run.failure.Some? then run
    else
      var req := Requests(outline, params)[k];
      match Reply(outline, params, writer, k)
      case Err(m) => run.(calls := run.calls + [req], failure := Some(m))
      case Ok(reply) =>
        run.(book := Place(outline, run.book, Slots(outline)[k], reply),
             words := run.words + CountWords(reply.texto),
             completed := run.completed + 1,
             calls := run.calls + [req],
             progressLog := run.progressLog + [ProgressAfter(outline, k)])
  }

  /** The run before anything is written. */
  function Start(outline: BookOutline, params: Params): Run {
    Run(Skeleton(outline, params), 0, 0, [], [], None)
  }

  /** The run after its first `n` units. */
  function RunUpTo(outline: BookOutline, params: Params, writer: Writer, n: nat): Run
    requires n <= TotalSections(outline)
    decreases n, 1
  {
    if n == 0 then Start(outline, params) else After(outline, params, writer, n - 1)
  }

  /** The run after unit `k`. */
  function After(outline: BookOutline, params: Params, writer: Writer, k: nat): Run
    requires k < TotalSections(outline)
    decreases k, 2
  {
    Step(outline, params, writer, RunUpTo(outline, params, writer, k), k)
  }

  /** One more unit. */
  lemma RunNext(outline: BookOutline, params: Params, writer: Writer, k: nat)
    requires k < TotalSections(outline)
    ensures RunUpTo(outline, params, writer, k + 1)
      == Step(outline, params, writer, RunUpTo(outline, params, writer, k), k)
  {
  }

  /** The whole run. */
  function Generate(outline: BookOutline, params: Params, writer: Writer): Run {
    RunUpTo(outline, params, writer, TotalSections(outline))
  }

  /** The book keeps every title of the outline: book, introduction,
      conclusion, and each chapter's title, section titles and references. */
  predicate SameShape(book: GeneratedBook, outline: BookOutline) {
    && book.titulo == outline.titulo
    && book.introduccion.titulo == outline.introduccion.titulo
    && book.conclusion.titulo == outline.conclusion.titulo
    && |book.capitulos| == |outline.capitulos|
    && forall i :: 0 <= i < |book.capitulos| ==>
        && book.capitulos[i].titulo == outline.capitulos[i].titulo
        && book.capitulos[i].secciones == outline.capitulos[i].secciones
        && book.capitulos[i].referencias == outline.capitulos[i].referencias
  }

  /** Writing never changes a title: at every point of a run the book has
      the outline's titles, chapters and section titles. */
  lemma {:induction false} ShapeKept(outline: BookOutline, params: Params, writer: Writer, n: nat)
    requires n <= TotalSections(outline)
    ensures SameShape(RunUpTo(outline, params, writer, n).book, outline)
  {
    if n > 0 {
      ShapeKept(outline, params, writer, n - 1);
      PlaceKeepsShape(outline, RunUpTo(outline, params, writer, n - 1).book, Slots(outline)[n - 1],
        Reply(outline, params, writer, n - 1));
    }
  }

  lemma PlaceKeepsShape(outline: BookOutline, book: GeneratedBook, slot: Slot, reply: Result<SectionReply>)
    requires SameShape(book, outline)
    ensures reply.Ok? ==> SameShape(Place(outline, book, slot, reply.value), outline)
  {
  }

  /** The words of the units written among the first `n`. */
  function WordsOf(outline: BookOutline, params: Params, writer: Writer, n: nat): nat
    requires n <= TotalSections(outline)
  {
    if n == 0 then 0
    else
      var w := match Reply(outline, params, writer, n - 1)
        case Ok(r) => CountWords(r.texto)
        case Err(_) => 0;
      WordsOf(outline, params, writer, n - 1) + w
  }

  /** The writer answered each of the first `n` calls. */
  predicate AllWritten(outline: BookOutline, params: Params, writer: Writer, n: nat)
    requires n <= TotalSections(outline)
  {
    forall k :: 0 <= k < n ==> Reply(outline, params, writer, k).Ok?
  }

  /** What a run has done after `n` units: it completed exactly the units
      before the first failed call, made the calls of a full run in order up
      to and including that failed one, gave the progress bar one value per
      completed unit and added up their words; the error it keeps is the one
      of the failed call. */
  predicate Traced(outline: BookOutline, params: Params, writer: Writer, n: nat, r: Run)
    requires n <= TotalSections(outline)
  {
    && TracedCounts(outline, params, writer, n, r)
    && TracedCalls(outline, params, n, r)
    && TracedValues(outline, params, writer, r)
  }

  predicate TracedCounts(outline: BookOutline, params: Params, writer: Writer, n: nat, r: Run)
    requires n <= TotalSections(outline)
  {
    && r.completed <= n
    && AllWritten(outline, params, writer, r.completed)
    && (r.failure.None? <==> r.completed == n)
    && (r.failure.Some? ==> Reply(outline, params, writer, r.completed) == Err(r.failure.value))
  }

  predicate TracedCalls(outline: BookOutline, params: Params, n: nat, r: Run)
    requires n <= TotalSections(outline)
  {
    && |r.calls| == (if r.failure.None? then n else r.completed + 1)
    && |r.calls| <= n
    && r.calls == Requests(outline, params)[..|r.calls|]
  }

  predicate TracedValues(outline: BookOutline, params: Params, writer: Writer, r: Run)
  {
    && r.completed <= TotalSections(outline)
    && |r.progressLog| == r.completed
    && (forall p :: 0 <= p < r.completed ==> r.progressLog[p] == ProgressAfter(outline, p))
    && r.words == WordsOf(outline, params, writer, r.completed)
  }

  /** What one unit changes besides the book. */
  lemma StepEffect(outline: BookOutline, params: Params, writer: Writer, n: nat, r: Run)
    requires n < TotalSections(outline)
    requires r.failure.None?
    ensures var r' := Step(outline, params, writer, r, n);
      var reply := Reply(outline, params, writer, n);
      && r'.calls == r.calls + [Requests(outline, params)[n]]
      && (reply.Err? ==>
          r'.failure == Some(reply.message) && r'.completed == r.completed
          && r'.progressLog == r.progressLog && r'.words == r.words)
      && (reply.Ok? ==>
          r'.failure.None? && r'.completed == r.completed + 1
          && r'.progressLog == r.progressLog + [ProgressAfter(outline, n)]
          && r'.words == r.words + CountWords(reply.value.texto))
  {
  }

  lemma TraceWritten(outline: BookOutline, params: Params, writer: Writer, n: nat, r: Run, r': Run)
    requires n < TotalSections(outline)
    requires Traced(outline, params, writer, n, r) && r.failure.None?
    requires Reply(outline, params, writer, n).Ok?
    requires r'.calls == r.calls + [Requests(outline, params)[n]]
    requires r'.failure.None? && r'.completed == r.completed + 1
    requires r'.progressLog == r.progressLog + [ProgressAfter(outline, n)]
    requires r'.words == r.words + CountWords(Reply(outline, params, writer, n).value.texto)
    ensures Traced(outline, params, writer, n + 1, r')
  {
    CallsStep(outline, params, n, r, r');
    CountsWritten(outline, params, writer, n, r, r');
    ValuesWritten(outline, params, writer, n, r, r');
  }

  /** The calls after one more unit, written or failed. */
  lemma CallsStep(outline: BookOutline, params: Params, n: nat, r: Run, r': Run)
    requires n < TotalSections(outline)
    requires TracedCalls(outline, params, n, r) && r.failure.None?
    requires r'.calls == r.calls + [Requests(outline, params)[n]]
    requires r'.failure.None? || r'.completed == n
    ensures TracedCalls(outline, params, n + 1, r')
  {
    var reqs := Requests(outline, params);
    assert reqs[..n] + [reqs[n]] == reqs[..n + 1];
  }

  lemma CountsWritten(outline: BookOutline, params: Params, writer: Writer, n: nat, r: Run, r': Run)
    requires n < TotalSections(outline)
    requires TracedCounts(outline, params, writer, n, r) && r.failure.None?
    requires Reply(outline, params, writer, n).Ok?
    requires r'.failure.None? && r'.completed == r.completed + 1
    ensures TracedCounts(outline, params, writer, n + 1, r')
  {
  }

  lemma CountsFailed(outline: BookOutline, params: Params, writer: Writer, n: nat, r: Run, r': Run)
    requires n < TotalSections(outline)
    requires TracedCounts(outline, params, writer, n, r) && r.failure.None?
    requires Reply(outline, params, writer, n).Err?
    requires r'.failure == Some(Reply(outline, params, writer, n).message)
    requires r'.completed == r.completed
    ensures TracedCounts(outline, params, writer, n + 1, r')
  {
  }

  lemma ValuesWritten(outline: BookOutline, params: Params, writer: Writer, n: nat, r: Run, r': Run)
    requires n < TotalSections(outline) && r.completed == n
    requires TracedValues(outline, params, writer, r)
    requires Reply(outline, params, writer, n).Ok?
    requires r'.completed == n + 1
    requires r'.progressLog == r.progressLog + [ProgressAfter(outline, n)]
    requires r'.words == r.words + CountWords(Reply(outline, params, writer, n).value.texto)
    ensures TracedValues(outline, params, writer, r')
  {
  }

  lemma TraceFailed(outline: BookOutline, params: Params, writer: Writer, n: nat, r: Run, r': Run)
    requires n < TotalSections(outline)
    requires Traced(outline, params, writer, n, r) && r.failure.None?
    requires Reply(outline, params, writer, n).Err?
    requires r'.calls == r.calls + [Requests(outline, params)[n]]
    requires r'.failure == Some(Reply(outline, params, writer, n).message)
    requires r'.completed == r.completed && r'.progressLog == r.progressLog && r'.words == r.words
    ensures Traced(outline, params, writer, n + 1, r')
  {
    CallsStep(outline, params, n, r, r');
    CountsFailed(outline, params, writer, n, r, r');
    assert TracedValues(outline, params, writer, r');
  }

  lemma TraceStep(outline: BookOutline, params: Params, writer: Writer, n: nat, r: Run)
    requires n < TotalSections(outline)
    requires Traced(outline, params, writer, n, r)
    ensures Traced(outline, params, writer, n + 1, Step(outline, params, writer, r, n))
  {
    if r.failure.None? {
      StepEffect(outline, params, writer, n, r);
      var r' := Step(outline, params, writer, r, n);
      if Reply(outline, params, writer, n).Ok? {
        TraceWritten(outline, params, writer, n, r, r');
      } else {
        TraceFailed(outline, params, writer, n, r, r');
      }
    }
  }

  lemma TraceStart(outline: BookOutline, params: Params, writer: Writer)
    ensures Traced(outline, params, writer, 0, Start(outline, params))
  {
    assert Requests(outline, params)[..0] == [];
  }

  lemma TraceNext(outline: BookOutline, params: Params, writer: Writer, n: nat)
    requires n < TotalSections(outline)
    requires Traced(outline, params, writer, n, RunUpTo(outline, params, writer, n))
    ensures Traced(outline, params, writer, n + 1, RunUpTo(outline, params, writer, n + 1))
  {
    TraceStep(outline, params, writer, n, RunUpTo(outline, params, writer, n));
  }

  /** Every run, after any number of units, is traced as above. */
  lemma {:induction false} RunTrace(outline: BookOutline, params: Params, writer: Writer, n: nat)
    requires n <= TotalSections(outline)
    ensures Traced(outline, params, writer, n, RunUpTo(outline, params, writer, n))
  {
    if n == 0 {
      TraceStart(outline, params, writer);
    } else {
      RunTrace(outline, params, writer, n - 1);
      TraceNext(outline, params, writer, n - 1);
    }
  }

  /** A failed run does nothing more: its final state is the one after the
      failed unit. */
  lemma {:induction false} FailureIsFinal(outline: BookOutline, params: Params, writer: Writer, n: nat)
    requires n <= TotalSections(outline)
    requires RunUpTo(outline, params, writer, n).failure.Some?
    ensures Generate(outline, params, writer) == RunUpTo(outline, params, writer, n)
    decreases TotalSections(outline) - n
  {
    if n < TotalSections(outline) {
      assert RunUpTo(outline, params, writer, n + 1) == RunUpTo(outline, params, writer, n);
      FailureIsFinal(outline, params, writer, n + 1);
    }
  }

  /** Unit 0 is the introduction. */
  lemma IntroStep(outline: BookOutline, params: Params, writer: Writer, r: Run)
    requires r.failure.None?
    ensures var req := Requests(outline, params)[0];
      && req == WriteRequest(outline.titulo, "Introducción", outline.introduccion.titulo,
           params.publicationType, params.tone, params.audience,
           WordsPerSection(outline, params.wordCountTarget), params.outputLanguage, params.fileContent)
      && Step(outline, params, writer, r, 0) == match writer(0, req)
           case Err(m) => r.(calls := r.calls + [req], failure := Some(m))
           case Ok(reply) =>
             r.(book := r.book.(introduccion := Written(r.book.introduccion.titulo, reply)),
                words := r.words + CountWords(reply.texto),
                completed := r.completed + 1,
                calls := r.calls + [req],
                progressLog := r.progressLog + [Share(1, TotalSections(outline))])
  {
    SlotsLayout(outline);
  }

  /** Unit `1 + SectionsBefore(caps, i) + j` is section `j` of chapter `i`;
      it is appended to the sections already written for that chapter. */
  lemma SectionStep(outline: BookOutline, params: Params, writer: Writer, i: nat, j: nat,
                    r: Run, written: seq<SectionContent>)
    requires i < |outline.capitulos| && j < |outline.capitulos[i].secciones|
    requires r.failure.None? && i < |r.book.capitulos|
    requires r.book.capitulos[i].contenido == Some(written)
    ensures var caps := outline.capitulos;
      var k := 1 + SectionsBefore(caps, i) + j;
      k < TotalSections(outline) - 1
      && var req := Requests(outline, params)[k];
      && req == WriteRequest(outline.titulo, caps[i].titulo, caps[i].secciones[j],
           params.publicationType, params.tone, params.audience,
           WordsPerSection(outline, params.wordCountTarget), params.outputLanguage, params.fileContent)
      && Step(outline, params, writer, r, k) == match writer(k, req)
           case Err(m) => r.(calls := r.calls + [req], failure := Some(m))
           case Ok(reply) =>
             var c := r.book.capitulos[i];
             r.(book := r.book.(capitulos := r.book.capitulos[i := c.(contenido :=
                  Some(written + [Written(caps[i].secciones[j], reply)]))]),
                words := r.words + CountWords(reply.texto),
                completed := r.completed + 1,
                calls := r.calls + [req],
                progressLog := r.progressLog + [Share(k + 1, TotalSections(outline))])
  {
    var caps := outline.capitulos;
    var k := 1 + SectionsBefore(caps, i) + j;
    SlotOfSection(outline, i, j);
    var req := Requests(outline, params)[k];
    assert req == Request(outline, params, SectionSlot(i, j));
    assert ProgressAfter(outline, k) == Share(k + 1, TotalSections(outline));
    match writer(k, req) {
      case Err(m) =>
      case Ok(reply) =>
        var c := r.book.capitulos[i];
        assert Place(outline, r.book, SectionSlot(i, j), reply)
          == r.book.(capitulos := r.book.capitulos[i := c.(contenido :=
               Some(written + [Written(caps[i].secciones[j], reply)]))]);
    }
  }

  /** The last unit is the conclusion; it fills the progress bar. */
  lemma ConclusionStep(outline: BookOutline, params: Params, writer: Writer, r: Run)
    requires r.failure.None?
    ensures var k := TotalSections(outline) - 1;
      var req := Requests(outline, params)[k];
      && k == 1 + SectionsBefore(outline.capitulos, |outline.capitulos|)
      && req == WriteRequest(outline.titulo, "Conclusión", outline.conclusion.titulo,
           params.publicationType, params.tone, params.audience,
           WordsPerSection(outline, params.wordCountTarget), params.outputLanguage, params.fileContent)
      && Step(outline, params, writer, r, k) == match writer(k, req)
           case Err(m) => r.(calls := r.calls + [req], failure := Some(m))
           case Ok(reply) =>
             r.(book := r.book.(conclusion := Written(r.book.conclusion.titulo, reply)),
                words := r.words + CountWords(reply.texto),
                completed := r.completed + 1,
                calls := r.calls + [req],
                progressLog := r.progressLog + [Percent(100)])
  {
    SlotsLayout(outline);
  }

  /** From the run after the last chapter, the conclusion ends the run. */
  lemma ConclusionRun(outline: BookOutline, params: Params, writer: Writer, start: Run)
    requires ChapterReady(outline, params, writer, |outline.capitulos|, start)
    ensures var k := TotalSections(outline) - 1;
      var req := Requests(outline, params)[k];
      && k == start.completed
      && req == WriteRequest(outline.titulo, "Conclusión", outline.conclusion.titulo,
           params.publicationType, params.tone, params.audience,
           WordsPerSection(outline, params.wordCountTarget), params.outputLanguage, params.fileContent)
      && Generate(outline, params, writer) == match writer(k, req)
           case Err(m) => start.(calls := start.calls + [req], failure := Some(m))
           case Ok(reply) =>
             start.(book := start.book.(conclusion := Written(start.book.conclusion.titulo, reply)),
                words := start.words + CountWords(reply.texto),
                completed := start.completed + 1,
                calls := start.calls + [req],
                progressLog := start.progressLog + [Percent(100)])
  {
    ConclusionStep(outline, params, writer, start);
    RunNext(outline, params, writer, TotalSections(outline) - 1);
  }

  /** The writing loop of `handleGenerateBook`: the skeleton is filled unit
      by unit (introduction, each chapter's sections, conclusion) with the
      running word total, the completed count and the progress bar kept up
      to date; the first error ends the run. The result is the run the
      specification `Generate` describes. */
  method WriteBook(outline: BookOutline, params: Params, writer: Writer) returns (run: Run)
    ensures run == Generate(outline, params, writer)
  {
    var caps := outline.capitulos;
    run := WriteIntroduction(outline, params, writer);
    if run.failure.Some? {
      return;
    }
    for i := 0 to |caps|
      invariant ChapterReady(outline, params, writer, i, run)
    {
      run := WriteChapter(outline, params, writer, i, run);
      if run.failure.Some? {
        return;
      }
    }
    run := WriteConclusion(outline, params, writer, run);
  }

  /** A run that has written the introduction and the first `i` chapters
      and has not failed: chapters `i` onwards have no written section. */
  predicate ChapterReady(outline: BookOutline, params: Params, writer: Writer, i: nat, run: Run) {
    && i <= |outline.capitulos|
    && run.failure.None? && |run.book.capitulos| == |outline.capitulos|
    && run.completed == 1 + SectionsBefore(outline.capitulos, i) <= TotalSections(outline) - 1
    && run == RunUpTo(outline, params, writer, run.completed)
    && forall i' :: i <= i' < |outline.capitulos| ==> run.book.capitulos[i'].contenido == Some([])
  }

  /** The introduction, written into the skeleton. */
  method WriteIntroduction(outline: BookOutline, params: Params, writer: Writer) returns (run: Run)
    ensures run.failure.Some? ==> run == Generate(outline, params, writer)
    ensures run.failure.None? ==> ChapterReady(outline, params, writer, 0, run)
  {
    var book := Skeleton(outline, params);
    var totalWords: nat := 0;
    var totalSections := TotalSections(outline);
    var wordsPerSection := WordsPerSection(outline, params.wordCountTarget);
    var sectionsCompleted := 0;
    var calls: seq<WriteRequest> := [];
    var progressLog: seq<Progress> := [];
    var req := WriteRequest(outline.titulo, "Introducción", outline.introduccion.titulo,
      params.publicationType, params.tone, params.audience, wordsPerSection,
      params.outputLanguage, params.fileContent);
    IntroStep(outline, params, writer, Start(outline, params));
    var reply := writer(sectionsCompleted, req);
    calls := calls + [req];
    if reply.Err? {
      run := Run(book, totalWords, sectionsCompleted, calls, progressLog, Some(reply.message));
      FailureIsFinal(outline, params, writer, 1);
      return;
    }
    book := book.(introduccion := Written(book.introduccion.titulo, reply.value));
    totalWords := totalWords + CountWords(reply.value.texto);
    sectionsCompleted := sectionsCompleted + 1;
    progressLog := progressLog + [Share(sectionsCompleted, totalSections)];
    run := Run(book, totalWords, sectionsCompleted, calls, progressLog, None);
  }

  /** The sections of chapter `i`, in order, each appended to the chapter's
      written content as soon as it arrives. */
  method WriteChapter(outline: BookOutline, params: Params, writer: Writer, i: nat, start: Run)
    returns (run: Run)
    requires i < |outline.capitulos|
    requires ChapterReady(outline, params, writer, i, start)
    ensures run.failure.Some? ==> run == Generate(outline, params, writer)
    ensures run.failure.None? ==> ChapterReady(outline, params, writer, i + 1, run)
  {
    var chapter := outline.capitulos[i];
    var newChapterContent: seq<SectionContent> := [];
    run := start;
    ChapterOpens(outline, params, writer, i, run);
    for j := 0 to |chapter.secciones|
      invariant SectionReady(outline, params, writer, i, j, run, newChapterContent)
    {
      run, newChapterContent := WriteSection(outline, params, writer, i, j, run, newChapterContent);
      if run.failure.Some? {
        return;
      }
    }
    ChapterCloses(outline, params, writer, i, run, newChapterContent);
  }

  /** A run inside chapter `i` that has written its first `j` sections,
      `written`, and has not failed; later chapters have no written section. */
  predicate SectionReady(outline: BookOutline, params: Params, writer: Writer, i: nat, j: nat,
                         run: Run, written: seq<SectionContent>) {
    && i < |outline.capitulos| && j <= |outline.capitulos[i].secciones|
    && run.failure.None? && |run.book.capitulos| == |outline.capitulos|
    && run.completed == 1 + SectionsBefore(outline.capitulos, i) + j <= TotalSections(outline) - 1
    && run == RunUpTo(outline, params, writer, run.completed)
    && run.book.capitulos[i].contenido == Some(written)
    && forall i' :: i < i' < |outline.capitulos| ==> run.book.capitulos[i'].contenido == Some([])
  }

  lemma ChapterOpens(outline: BookOutline, params: Params, writer: Writer, i: nat, run: Run)
    requires i < |outline.capitulos|
    requires ChapterReady(outline, params, writer, i, run)
    ensures SectionReady(outline, params, writer, i, 0, run, [])
  {
    SectionsBeforeGrow(outline.capitulos, i, |outline.capitulos|);
  }

  lemma ChapterCloses(outline: BookOutline, params: Params, writer: Writer, i: nat, run: Run,
                      written: seq<SectionContent>)
    requires i < |outline.capitulos|
    requires SectionReady(outline, params, writer, i, |outline.capitulos[i].secciones|, run, written)
    ensures ChapterReady(outline, params, writer, i + 1, run)
  {
  }

  /** Section `j` of chapter `i`: the call, then the chapter's written
      content, the word total, the completed count and the progress bar. */
  method WriteSection(outline: BookOutline, params: Params, writer: Writer, i: nat, j: nat,
                      current: Run, written: seq<SectionContent>)
    returns (next: Run, newChapterContent: seq<SectionContent>)
    requires i < |outline.capitulos| && j < |outline.capitulos[i].secciones|
    requires SectionReady(outline, params, writer, i, j, current, written)
    ensures next.failure.Some? ==> next == Generate(outline, params, writer)
    ensures next.failure.None? ==> SectionReady(outline, params, writer, i, j + 1, next, newChapterContent)
  {
    var book, totalWords, sectionsCompleted := current.book, current.words, current.completed;
    var calls, progressLog := current.calls, current.progressLog;
    var totalSections := TotalSections(outline);
    var chapter := outline.capitulos[i];
    var sectionTitle := chapter.secciones[j];
    var req := WriteRequest(outline.titulo, chapter.titulo, sectionTitle,
      params.publicationType, params.tone, params.audience,
      WordsPerSection(outline, params.wordCountTarget), params.outputLanguage, params.fileContent);
    SectionStep(outline, params, writer, i, j, current, written);
    var reply := writer(sectionsCompleted, req);
    calls := calls + [req];
    if reply.Err? {
      next := Run(book, totalWords, sectionsCompleted, calls, progressLog, Some(reply.message));
      newChapterContent := written;
      FailureIsFinal(outline, params, writer, sectionsCompleted + 1);
      return;
    }
    newChapterContent := written + [Written(sectionTitle, reply.value)];
    totalWords := totalWords + CountWords(reply.value.texto);
    sectionsCompleted := sectionsCompleted + 1;
    progressLog := progressLog + [Share(sectionsCompleted, totalSections)];
    book := book.(capitulos := book.capitulos[i := book.capitulos[i].(contenido := Some(newChapterContent))]);
    next := Run(book, totalWords, sectionsCompleted, calls, progressLog, None);
  }

  /** The conclusion, the last unit; it fills the progress bar. */
  method WriteConclusion(outline: BookOutline, params: Params, writer: Writer, start: Run)
    returns (run: Run)
    requires ChapterReady(outline, params, writer, |outline.capitulos|, start)
    ensures run == Generate(outline, params, writer)
  {
    var book := start.book;
    var totalWords: nat, sectionsCompleted: nat := start.words, start.completed;
    var calls, progressLog := start.calls, start.progressLog;
    var wordsPerSection := WordsPerSection(outline, params.wordCountTarget);
    var req := WriteRequest(outline.titulo, "Conclusión", outline.conclusion.titulo,
      params.publicationType, params.tone, params.audience, wordsPerSection,
      params.outputLanguage, params.fileContent);
    ConclusionRun(outline, params, writer, start);
    var reply := writer(sectionsCompleted, req);
    calls := calls + [req];
    if reply.Err? {
      run := Run(book, totalWords, sectionsCompleted, calls, progressLog, Some(reply.message));
      return;
    }
    book := book.(conclusion := Written(book.conclusion.titulo, reply.value));
    totalWords := totalWords + CountWords(reply.value.texto);
    sectionsCompleted := sectionsCompleted + 1;
    progressLog := progressLog + [Percent(100)];
    run := Run(book, totalWords, sectionsCompleted, calls, progressLog, None);
  }
}
