/** The screen state of the assistant (App.tsx): the step the user is on,
    the settings, the outline and the book, and the handlers that move
    between steps. Each `useState` variable is a field; each handler is a
    method that runs to completion, so the intermediate renders of an async
    handler are not part of the state. */
module App {
  import opened Wrappers
  import opened Strings
  import opened Sorting
  import opened Types
  import opened Gemini
  import opened Generation
  import opened GenerationOutcome
  import Docx
  import Export

  /** The arguments of one call to the outline generator. */
  datatype OutlineRequest = OutlineRequest(
    userInput: string,
    publicationType: string,
    tone: string,
    audience: string,
    numChapters: nat,
    wordCountTarget: nat,
    outputLanguage: string,
    fileContent: string)

  /** The outline service: the parsed outline, or `None` when the call fails. */
  type OutlineApi = OutlineRequest -> Option<BookOutline>

  /** The section service: the `k`-th call's response, or `None` when the
      call fails. */
  type SectionApi = (nat, WriteRequest) -> Option<ApiResponse>

  /** The screen passes neither a language nor base material, so every
      language test sees a value other than "en" and the base material is
      absent. */
  const ScreenLanguage: string := "es"
  const NoBaseMaterial: string := ""

  const OutlineTask: string := "Generando estructura del libro..."
  const BlankTopicError: string := "Por favor, introduce un tema o un artículo."
  const UnknownError: string := "Ocurrió un error desconocido."
  const BookError: string := "Ocurrió un error durante la generación del libro."

  /** `e.message || fallback`: the message unless it is empty. */
  function MessageOr(message: string, fallback: string): (m: string)
    ensures m != [] <== fallback != []
    ensures message != [] ==> m == message
  {
    if message == [] then fallback else message
  }

  /** The outline service's error always has text, so the fallback message
      is never shown for it. */
  lemma OutlineErrorHasText()
    ensures MessageOr(OutlineErrorMessage(ScreenLanguage), UnknownError) == OutlineErrorMessage(ScreenLanguage)
  {
  }

  /** The section writer the screen uses: `generateSectionContent` on the
      service's response, in the request's language. */
  function SectionService(api: SectionApi): Writer {
    (k: nat, req: WriteRequest) => GenerateSectionContent(api(k, req), req.sectionTitle, req.outputLanguage)
  }

  /** A call through the section service fails exactly when the service
      fails, with the localized message that names the section. */
  lemma SectionServiceErrors(api: SectionApi, k: nat, req: WriteRequest)
    ensures SectionService(api)(k, req).Err? <==> api(k, req).None?
    ensures SectionService(api)(k, req).Err? ==>
      SectionService(api)(k, req).message == SectionErrorMessage(req.outputLanguage, req.sectionTitle)
      && SectionService(api)(k, req).message != []
  {
    var m := SectionErrorMessage(req.outputLanguage, req.sectionTitle);
    assert EndsWith(m, "\"" + req.sectionTitle + "\".");
  }

  /** The last value given to the progress bar, if any. */
  function LastProgress(log: seq<Progress>, current: Progress): (p: Progress)
    ensures log == [] ==> p == current
    ensures log != [] ==> p in log
  {
    if log == [] then current else log[|log| - 1]
  }

  /** Every reference of every written section of the chapters, chapter by
      chapter (`flatMap` over the chapters and their sections). */
  function SectionReferences(caps: seq<Chapter>): seq<string> {
    if caps == [] then []
    else
      var last := caps[|caps| - 1];
      SectionReferences(caps[..|caps| - 1]) + ChapterReferences(last.contenido.GetOr([]))
  }

  function ChapterReferences(secs: seq<SectionContent>): seq<string> {
    if secs == [] then [] else ChapterReferences(secs[..|secs| - 1]) + secs[|secs| - 1].referencias
  }

  lemma {:induction false} ChapterReferencesHas(secs: seq<SectionContent>, x: string)
    ensures x in ChapterReferences(secs) <==> exists j :: 0 <= j < |secs| && x in secs[j].referencias
  {
    if secs != [] {
      var init := secs[..|secs| - 1];
      ChapterReferencesHas(init, x);
      if x in ChapterReferences(init) {
        var j :| 0 <= j < |init| && x in init[j].referencias;
        assert secs[j] == init[j];
      }
      if j :| 0 <= j < |secs| && x in secs[j].referencias {
        if j < |init| {
          assert init[j] == secs[j];
        }
      }
    }
  }

  /** A reference is among the section references exactly when some
      written section of some chapter carries it. */
  lemma {:induction false} SectionReferencesHas(caps: seq<Chapter>, x: string)
    ensures x in SectionReferences(caps) <==>
      exists i :: 0 <= i < |caps| && x in ChapterReferences(caps[i].contenido.GetOr([]))
  {
    if caps != [] {
      var init := caps[..|caps| - 1];
      SectionReferencesHas(init, x);
      if x in SectionReferences(init) {
        var i :| 0 <= i < |init| && x in ChapterReferences(init[i].contenido.GetOr([]));
        assert caps[i] == init[i];
      }
      if i :| 0 <= i < |caps| && x in ChapterReferences(caps[i].contenido.GetOr([])) {
        if i < |init| {
          assert init[i] == caps[i];
        }
      }
    }
  }

  /** The references shown on the review page: those of the introduction,
      of every written section and of the conclusion, each once, sorted. */
  function ReviewReferences(book: GeneratedBook): (refs: seq<string>)
    ensures forall i, j :: 0 <= i < j < |refs| ==> Below(refs[i], refs[j])
    ensures forall x :: x in refs <==>
      x in book.introduccion.referencias + SectionReferences(book.capitulos) + book.conclusion.referencias
  {
    var all := book.introduccion.referencias + SectionReferences(book.capitulos) + book.conclusion.referencias;
    var unique := Dedup(all);
    SortKeepsNoDuplicates(unique);
    assert forall x :: x in Sort(unique) <==> x in multiset(unique);
    Sort(unique)
  }

  /** The review list is the union of the references of the introduction,
      of each written section of each chapter and of the conclusion. */
  lemma ReviewReferencesUnion(book: GeneratedBook, x: string)
    ensures x in ReviewReferences(book) <==>
      || x in book.introduccion.referencias
      || x in book.conclusion.referencias
      || exists i, j :: 0 <= i < |book.capitulos| && book.capitulos[i].contenido.Some?
           && 0 <= j < |book.capitulos[i].contenido.value|
           && x in book.capitulos[i].contenido.value[j].referencias
  {
    var caps := book.capitulos;
    SectionReferencesHas(caps, x);
    if i :| 0 <= i < |caps| && x in ChapterReferences(caps[i].contenido.GetOr([])) {
      ChapterReferencesHas(caps[i].contenido.GetOr([]), x);
    }
    if i, j :| (0 <= i < |caps| && caps[i].contenido.Some?
                && 0 <= j < |caps[i].contenido.value| && x in caps[i].contenido.value[j].referencias) {
      ChapterReferencesHas(caps[i].contenido.GetOr([]), x);
    }
  }

  /** The assistant's screen: one field per piece of React state. A handler
      takes the screen it starts from and returns the screen it leaves
      behind; the renders in between are not part of the model. */
  datatype Screen = Screen(
    step: AppStep,
    userInput: string,
    publicationType: string,
    tone: string,
    audience: string,
    numChapters: nat,
    wordCountTarget: nat,
    bookOutline: Option<BookOutline>,
    generatedBook: Option<GeneratedBook>,
    isLoading: bool,
    error: string,
    progress: Progress,
    currentTask: string,
    wordCount: nat)

  /** The state when the page opens: the input step with the default
      settings, and no outline, book, error, progress or words. */
  function Opening(): (s: Screen)
    ensures s.step == Input && s.userInput == ""
    ensures s.publicationType == "académica" && s.tone == "formal" && s.audience == "profesionales"
    ensures s.numChapters == 7 && s.wordCountTarget == 25000
    ensures s.bookOutline == None && s.generatedBook == None
    ensures !s.isLoading && s.error == "" && s.progress == Percent(0) && s.currentTask == "" && s.wordCount == 0
  {
    Screen(Input, "", "académica", "formal", "profesionales", 7, 25000, None, None, false, "", Percent(0), "", 0)
  }

  /** The settings of a book run, as the screen passes them. */
  function Settings(s: Screen): (p: Params)
    ensures p.outputLanguage == ScreenLanguage && p.fileContent == NoBaseMaterial
  {
    Params(s.publicationType, s.tone, s.audience, s.numChapters, s.wordCountTarget, ScreenLanguage, NoBaseMaterial)
  }

  /** The form of the first step: the topic and the settings. */
  predicate SameForm(s: Screen, s': Screen) {
    s'.userInput == s.userInput && Settings(s') == Settings(s)
  }

  /** `handleGenerateOutline`: a topic that is blank once trimmed only sets
      an error and calls nothing; otherwise the outline service is called
      once, a success shows the outline and a failure shows its message;
      loading, progress and task are reset at the end. */
  method HandleGenerateOutline(s: Screen, api: OutlineApi) returns (s': Screen, calls: seq<OutlineRequest>)
    ensures Trim(s.userInput) == [] ==> calls == [] && s' == s.(error := BlankTopicError)
    ensures Trim(s.userInput) != [] ==>
      var req := OutlineRequest(s.userInput, s.publicationType, s.tone, s.audience,
        s.numChapters, s.wordCountTarget, ScreenLanguage, NoBaseMaterial);
      && calls == [req]
      && !s'.isLoading && s'.progress == Percent(0) && s'.currentTask == ""
      && (api(req).Some? ==> s'.bookOutline == api(req) && s'.step == Outline && s'.error == "")
      && (api(req).None? ==>
            s'.bookOutline == s.bookOutline && s'.step == s.step
            && s'.error == OutlineErrorMessage(ScreenLanguage))
    ensures SameForm(s, s') && s'.generatedBook == s.generatedBook && s'.wordCount == s.wordCount
  {
    if Trim(s.userInput) == [] {
      return s.(error := BlankTopicError), [];
    }
    s' := s.(isLoading := true, error := "", currentTask := OutlineTask, progress := Percent(5));
    var req := OutlineRequest(s.userInput, s.publicationType, s.tone, s.audience, s.numChapters,
      s.wordCountTarget, ScreenLanguage, NoBaseMaterial);
    calls := [req];
    var outcome := GenerateBookOutline(api(req), ScreenLanguage);
    match outcome {
      case Ok(outline) =>
        s' := s'.(bookOutline := Some(outline), step := Outline);
      case Err(message) =>
        OutlineErrorHasText();
        s' := s'.(error := MessageOr(message, UnknownError));
    }
    s' := s'.(isLoading := false, progress := Percent(0), currentTask := "");
  }

  /** `handleGenerateBook`: with no outline nothing happens; otherwise the
      book is written unit by unit through the section service, and the
      screen shows the outcome (`BookScreen`). */
  method HandleGenerateBook(s: Screen, api: SectionApi) returns (s': Screen, run: Option<Run>)
    ensures s.bookOutline.None? ==> run == None && s' == s
    ensures s.bookOutline.Some? ==>
      run == Some(Generate(s.bookOutline.value, Settings(s), SectionService(api)))
    ensures run.Some? ==> BookScreen(s, run.value, s')
  {
    if s.bookOutline.None? {
      return s, None;
    }
    var outline := s.bookOutline.value;
    var params := Settings(s);
    s' := s.(isLoading := true, error := "", step := Generating, wordCount := 0);
    var r := WriteBook(outline, params, SectionService(api));
    s' := s'.(wordCount := r.words, progress := LastProgress(r.progressLog, s'.progress));
    if r.completed >= 1 {
      s' := s'.(generatedBook := Some(r.book));
    }
    if r.failure.None? {
      CompleteRunFillsBar(outline, params, SectionService(api));
      s' := s'.(step := Review);
    } else {
      s' := s'.(error := MessageOr(r.failure.value, BookError), step := Outline);
    }
    s' := s'.(isLoading := false, currentTask := "");
    run := Some(r);
  }

  /** The screen after a book run: loading is over, the form and the outline
      are kept and the word count is the run's total. A complete run shows
      the review step with the finished book and a full progress bar; a
      failed run returns to the outline with the service's message, keeping
      the last snapshot of the book and of the progress bar. */
  predicate BookScreen(s: Screen, run: Run, s': Screen) {
    && SameForm(s, s') && s'.bookOutline == s.bookOutline
    && !s'.isLoading && s'.currentTask == "" && s'.wordCount == run.words
    && (run.failure.None? ==>
          s'.step == Review && s'.error == "" && s'.generatedBook == Some(run.book) && s'.progress == Percent(100))
    && (run.failure.Some? ==>
          && s'.step == Outline
          && s'.error == MessageOr(run.failure.value, BookError)
          && s'.generatedBook == (if run.completed >= 1 then Some(run.book) else s.generatedBook)
          && s'.progress == LastProgress(run.progressLog, s.progress))
  }

  /** `handleExport`: the Word document of the book on screen, if any. */
  method HandleExport(s: Screen) returns (download: Option<(seq<Docx.Paragraph>, string)>)
    ensures download.Some? <==> s.generatedBook.Some?
    ensures download.Some? ==>
      download.value.0 == Docx.DocxParagraphs(s.generatedBook.value)
      && download.value.1 == Export.FileName(s.generatedBook.value.titulo, ".docx")
  {
    if s.generatedBook.None? {
      return None;
    }
    var children, fileName := Docx.ExportToDocx(s.generatedBook.value);
    download := Some((children, fileName));
  }

  /** "Volver y Editar": back to the first step, dropping the outline and
      keeping everything else. */
  function BackToEdit(s: Screen): (s': Screen)
    ensures s'.step == Input && s'.bookOutline == None
    ensures s'.(step := s.step, bookOutline := s.bookOutline) == s
  {
    s.(step := Input, bookOutline := None)
  }

  /** "Crear un Nuevo Libro": back to the first step with an empty topic, no
      outline, no book and no words; the settings are kept. */
  function StartNewBook(s: Screen): (s': Screen)
    ensures s'.step == Input && s'.userInput == "" && s'.bookOutline == None && s'.generatedBook == None
    ensures s'.wordCount == 0 && Settings(s') == Settings(s)
    ensures s'.(step := s.step, userInput := s.userInput, bookOutline := s.bookOutline,
      generatedBook := s.generatedBook, wordCount := s.wordCount) == s
  {
    s.(step := Input, userInput := "", bookOutline := None, generatedBook := None, wordCount := 0)
  }

  /** Closing the error banner clears the error and nothing else. */
  function DismissError(s: Screen): (s': Screen)
    ensures s'.error == "" && s'.(error := s.error) == s
  {
    s.(error := "")
  }

  /** A failed book run reports the message of the section it stopped at:
      the section service's error always has text, so the fallback message
      is never used. */
  lemma FailedRunNamesSection(outline: BookOutline, params: Params, api: SectionApi)
    ensures var run := Generate(outline, params, SectionService(api));
      run.failure.Some? ==>
        && run.completed < TotalSections(outline)
        && api(run.completed, Requests(outline, params)[run.completed]).None?
        && MessageOr(run.failure.value, BookError)
           == SectionErrorMessage(params.outputLanguage, Requests(outline, params)[run.completed].sectionTitle)
  {
    var run := Generate(outline, params, SectionService(api));
    GenerationStopsAtFirstFailure(outline, params, SectionService(api));
    if run.failure.Some? {
      var req := Requests(outline, params)[run.completed];
      SectionServiceErrors(api, run.completed, req);
    }
  }

  /** What a book run that failed leaves behind: a progress bar that never
      filled, and a run's book holding exactly the units completed before
      the failed call. The screen shows that book when at least one unit
      completed and otherwise keeps the book it showed before
      (`BookScreen`). */
  lemma FailedRunScreen(outline: BookOutline, params: Params, api: SectionApi, before: Progress)
    requires BelowFull(before)
    ensures var run := Generate(outline, params, SectionService(api));
      run.failure.Some? ==>
        && BelowFull(LastProgress(run.progressLog, before))
        && run.book == BookAfter(outline, params.outputLanguage, Outcomes(outline, params, SectionService(api)), run.completed)
  {
    var run := Generate(outline, params, SectionService(api));
    GenerationStopsAtFirstFailure(outline, params, SectionService(api));
    if run.failure.Some? && run.progressLog != [] {
      assert LastProgress(run.progressLog, before) == run.progressLog[|run.progressLog| - 1];
    }
  }
}
