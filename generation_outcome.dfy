/** What a run of `handleGenerateBook` leaves behind: the book holds exactly
    the units written so far, in order and under the outline's titles; a
    complete run made every call of the plan and ends with a full progress
    bar; a failed run stopped at its first failed call. */
module GenerationOutcome {
  import opened Wrappers
  import opened Types
  import opened Gemini
  import opened Generation

  /** The outcome of every call of a complete run, in order. */
  function Outcomes(outline: BookOutline, params: Params, writer: Writer): (out: seq<Result<SectionReply>>)
    ensures |out| == TotalSections(outline)
  {
    seq(TotalSections(outline), k requires 0 <= k < TotalSections(outline) => Reply(outline, params, writer, k))
  }

  /** Unit `k` as it is stored once written: under `title`, the text,
      references and sources of its reply. */
  function Unit(out: seq<Result<SectionReply>>, k: nat, title: string): SectionContent {
    if k < |out| then
      match out[k]
      case Ok(r) => Written(title, r)
      case Err(_) => Blank(title)
    else Blank(title)
  }

  /** How many sections of chapter `i` are among the first `c` units. */
  function SectionsWritten(caps: seq<Chapter>, c: nat, i: nat): (m: nat)
    requires i < |caps|
    ensures m <= |caps[i].secciones|
  {
    var first := 1 + SectionsBefore(caps, i);
    if c <= first then 0
    else if c - first >= |caps[i].secciones| then |caps[i].secciones|
    else c - first
  }

  /** The first `m` written sections of chapter `i`, each under its title. */
  function ChapterWritten(caps: seq<Chapter>, out: seq<Result<SectionReply>>, i: nat, m: nat)
    : (s: seq<SectionContent>)
    requires i < |caps| && m <= |caps[i].secciones|
    ensures |s| == m
  {
    var first := 1 + SectionsBefore(caps, i);
    seq(m, j requires 0 <= j < m => Unit(out, first + j, caps[i].secciones[j]))
  }

  /** Chapter `i` once the first `c` units are written. */
  function ChapterAt(caps: seq<Chapter>, out: seq<Result<SectionReply>>, c: nat, i: nat): Chapter
    requires i < |caps|
  {
    caps[i].(contenido := Some(ChapterWritten(caps, out, i, SectionsWritten(caps, c, i))))
  }

  /** The book once the first `c` units are written: the introduction is
      written from the first unit on, each chapter holds its sections among
      the first `c` units, the conclusion is written by the last unit, and
      the book keeps the outline's titles, no consolidated references and the
      chosen language. */
  function BookAfter(outline: BookOutline, lang: string, out: seq<Result<SectionReply>>, c: nat): GeneratedBook {
    var caps := outline.capitulos;
    var t := TotalSections(outline);
    GeneratedBook(
      outline.titulo,
      if c >= 1 then Unit(out, 0, outline.introduccion.titulo) else Blank(outline.introduccion.titulo),
      seq(|caps|, i requires 0 <= i < |caps| => ChapterAt(caps, out, c, i)),
      if c >= t then Unit(out, t - 1, outline.conclusion.titulo) else Blank(outline.conclusion.titulo),
      [],
      lang)
  }

  lemma StartBook(outline: BookOutline, params: Params, out: seq<Result<SectionReply>>)
    ensures Start(outline, params).book == BookAfter(outline, params.outputLanguage, out, 0)
  {
    var caps := outline.capitulos;
    var a := Start(outline, params).book.capitulos;
    var b := BookAfter(outline, params.outputLanguage, out, 0).capitulos;
    forall i | 0 <= i < |caps| ensures a[i] == b[i] {
      assert SectionsWritten(caps, 0, i) == 0;
    }
  }

  /** Writing the introduction into the book of no units gives the book of
      one unit. */
  lemma PlaceIntro(outline: BookOutline, lang: string, out: seq<Result<SectionReply>>, r: SectionReply)
    requires 0 < |out| && out[0] == Ok(r)
    ensures Place(outline, BookAfter(outline, lang, out, 0), IntroSlot, r) == BookAfter(outline, lang, out, 1)
  {
    var caps := outline.capitulos;
    var a := BookAfter(outline, lang, out, 0).capitulos;
    var b := BookAfter(outline, lang, out, 1).capitulos;
    forall i | 0 <= i < |caps| ensures a[i] == b[i] {
      assert SectionsWritten(caps, 0, i) == 0 == SectionsWritten(caps, 1, i);
    }
  }

  /** Every chapter is complete once the units before the conclusion are
      written. */
  lemma AllChaptersDone(caps: seq<Chapter>, c: nat, i: nat)
    requires i < |caps| && c >= 1 + SectionsBefore(caps, |caps|)
    ensures SectionsWritten(caps, c, i) == |caps[i].secciones|
  {
    SectionsBeforeGrow(caps, i, |caps|);
  }

  lemma PlaceConclusion(outline: BookOutline, lang: string, out: seq<Result<SectionReply>>, r: SectionReply)
    requires |out| == TotalSections(outline) && out[|out| - 1] == Ok(r)
    ensures var t := TotalSections(outline);
      Place(outline, BookAfter(outline, lang, out, t - 1), ConclusionSlot, r) == BookAfter(outline, lang, out, t)
  {
    var caps := outline.capitulos;
    var t := TotalSections(outline);
    var a := BookAfter(outline, lang, out, t - 1).capitulos;
    var b := BookAfter(outline, lang, out, t).capitulos;
    forall i | 0 <= i < |caps| ensures a[i] == b[i] {
      AllChaptersDone(caps, t - 1, i);
      AllChaptersDone(caps, t, i);
    }
  }

  /** Chapters other than `i` hold as many sections after unit
      `1 + SectionsBefore(caps, i) + j` as before it. */
  lemma OtherChapterUnchanged(caps: seq<Chapter>, i: nat, j: nat, i': nat)
    requires i < |caps| && j < |caps[i].secciones| && i' < |caps| && i' != i
    ensures var c := 1 + SectionsBefore(caps, i) + j;
      SectionsWritten(caps, c, i') == SectionsWritten(caps, c + 1, i')
  {
    if i' < i {
      SectionsBeforeGrow(caps, i', i);
    } else {
      SectionsBeforeGrow(caps, i, i');
    }
  }

  lemma ChapterGrows(caps: seq<Chapter>, out: seq<Result<SectionReply>>, i: nat, j: nat, r: SectionReply)
    requires i < |caps| && j < |caps[i].secciones|
    requires 1 + SectionsBefore(caps, i) + j < |out|
    requires out[1 + SectionsBefore(caps, i) + j] == Ok(r)
    ensures ChapterWritten(caps, out, i, j) + [Written(caps[i].secciones[j], r)]
         == ChapterWritten(caps, out, i, j + 1)
  {
    var s := ChapterWritten(caps, out, i, j);
    var s' := ChapterWritten(caps, out, i, j + 1);
    assert s'[..j] == s;
    assert s' == s'[..j] + [s'[j]];
  }

  /** Unit `1 + SectionsBefore(caps, i) + j` appends to chapter `i` and
      leaves every other chapter as it was. */
  lemma ChapterStep(caps: seq<Chapter>, out: seq<Result<SectionReply>>, i: nat, j: nat, i': nat, r: SectionReply)
    requires i < |caps| && j < |caps[i].secciones| && i' < |caps|
    requires 1 + SectionsBefore(caps, i) + j < |out|
    requires out[1 + SectionsBefore(caps, i) + j] == Ok(r)
    ensures var c := 1 + SectionsBefore(caps, i) + j;
      var before := ChapterAt(caps, out, c, i);
      && (i' != i ==> ChapterAt(caps, out, c, i') == ChapterAt(caps, out, c + 1, i'))
      && before.contenido.Some?
      && before.(contenido := Some(before.contenido.value + [Written(caps[i].secciones[j], r)]))
         == ChapterAt(caps, out, c + 1, i)
  {
    var c := 1 + SectionsBefore(caps, i) + j;
    if i' != i {
      OtherChapterUnchanged(caps, i, j, i');
    }
    assert SectionsWritten(caps, c, i) == j;
    assert SectionsWritten(caps, c + 1, i) == j + 1;
    ChapterGrows(caps, out, i, j, r);
  }

  lemma PlaceSection(outline: BookOutline, lang: string, out: seq<Result<SectionReply>>, i: nat, j: nat, r: SectionReply)
    requires i < |outline.capitulos| && j < |outline.capitulos[i].secciones|
    requires 1 + SectionsBefore(outline.capitulos, i) + j < TotalSections(outline) - 1
    requires |out| == TotalSections(outline)
    requires out[1 + SectionsBefore(outline.capitulos, i) + j] == Ok(r)
    ensures var c := 1 + SectionsBefore(outline.capitulos, i) + j;
      Place(outline, BookAfter(outline, lang, out, c), SectionSlot(i, j), r) == BookAfter(outline, lang, out, c + 1)
  {
    var caps := outline.capitulos;
    var c := 1 + SectionsBefore(caps, i) + j;
    var before := BookAfter(outline, lang, out, c);
    var after := BookAfter(outline, lang, out, c + 1);
    var ch := before.capitulos[i];
    assert ch == ChapterAt(caps, out, c, i);
    ChapterStep(caps, out, i, j, i, r);
    var ch' := ch.(contenido := Some(ch.contenido.value + [Written(caps[i].secciones[j], r)]));
    var chapters := before.capitulos[i := ch'];
    forall i' | 0 <= i' < |caps| ensures chapters[i'] == after.capitulos[i'] {
      ChapterStep(caps, out, i, j, i', r);
    }
    assert chapters == after.capitulos;
    assert Place(outline, before, SectionSlot(i, j), r) == before.(capitulos := chapters);
  }

  /** Storing the reply of unit `c` turns the book of `c` units into the
      book of `c + 1`. */
  lemma PlaceNext(outline: BookOutline, lang: string, out: seq<Result<SectionReply>>, c: nat, r: SectionReply)
    requires |out| == TotalSections(outline) && c < |out| && out[c] == Ok(r)
    ensures Place(outline, BookAfter(outline, lang, out, c), Slots(outline)[c], r)
         == BookAfter(outline, lang, out, c + 1)
  {
    SlotsLayout(outline);
    var slot := Slots(outline)[c];
    if c == 0 {
      PlaceIntro(outline, lang, out, r);
    } else if c == |out| - 1 {
      PlaceConclusion(outline, lang, out, r);
    } else {
      PlaceSection(outline, lang, out, slot.chapter, slot.section, r);
    }
  }

  /** One unit of a run that has not failed keeps the book equal to the
      book of the units completed. */
  lemma BookStep(outline: BookOutline, params: Params, writer: Writer, n: nat, r: Run)
    requires n < TotalSections(outline)
    requires r.failure.None? && r.completed == n
    requires r.book == BookAfter(outline, params.outputLanguage, Outcomes(outline, params, writer), n)
    ensures var r' := Step(outline, params, writer, r, n);
      r'.book == BookAfter(outline, params.outputLanguage, Outcomes(outline, params, writer), r'.completed)
  {
    var out := Outcomes(outline, params, writer);
    assert out[n] == Reply(outline, params, writer, n);
    match out[n]
    case Ok(reply) => PlaceNext(outline, params.outputLanguage, out, n, reply);
    case Err(_) =>
  }

  /** A running count: the units completed by a run that has not failed. */
  lemma CompletedSoFar(outline: BookOutline, params: Params, writer: Writer, n: nat)
    requires n <= TotalSections(outline)
    ensures var r := RunUpTo(outline, params, writer, n);
      r.failure.None? ==> r.completed == n
  {
    RunTrace(outline, params, writer, n);
  }

  /** After any number of units the book is the book of the units completed:
      a failed call leaves it as it was. */
  lemma {:induction false} RunBook(outline: BookOutline, params: Params, writer: Writer, n: nat)
    requires n <= TotalSections(outline)
    ensures var r := RunUpTo(outline, params, writer, n);
      r.book == BookAfter(outline, params.outputLanguage, Outcomes(outline, params, writer), r.completed)
  {
    if n == 0 {
      StartBook(outline, params, Outcomes(outline, params, writer));
    } else {
      RunBook(outline, params, writer, n - 1);
      var r := RunUpTo(outline, params, writer, n - 1);
      if r.failure.None? {
        CompletedSoFar(outline, params, writer, n - 1);
        BookStep(outline, params, writer, n - 1, r);
      }
    }
  }

  /** The progress bar shows the share of units done after every unit but
      the last, which fills it. */
  lemma ProgressValues(outline: BookOutline, p: nat)
    requires p < TotalSections(outline)
    ensures p < TotalSections(outline) - 1 ==> ProgressAfter(outline, p) == Share(p + 1, TotalSections(outline))
    ensures p == TotalSections(outline) - 1 ==> ProgressAfter(outline, p) == Percent(100)
    ensures p < TotalSections(outline) - 1 ==> BelowFull(ProgressAfter(outline, p))
  {
    SlotsLayout(outline);
  }

  /** A run completes exactly when the writer answers every call; a
      complete run made every call of the plan in order, added up the words
      of every unit, holds the book of all its units and its progress bar
      rose by one share per unit and ended full. */
  lemma GenerationSucceeds(outline: BookOutline, params: Params, writer: Writer)
    ensures var r := Generate(outline, params, writer);
      var t := TotalSections(outline);
      && (r.failure.None? <==> AllWritten(outline, params, writer, t))
      && (r.failure.None? ==>
          && r.completed == t
          && r.calls == Requests(outline, params)
          && r.words == WordsOf(outline, params, writer, t)
          && r.book == BookAfter(outline, params.outputLanguage, Outcomes(outline, params, writer), t)
          && |r.progressLog| == t
          && r.progressLog[t - 1] == Percent(100)
          && forall p :: 0 <= p < t - 1 ==> r.progressLog[p] == Share(p + 1, t) && BelowFull(r.progressLog[p]))
  {
    var t := TotalSections(outline);
    RunTrace(outline, params, writer, t);
    RunBook(outline, params, writer, t);
    var r := Generate(outline, params, writer);
    if r.failure.None? {
      assert Requests(outline, params)[..t] == Requests(outline, params);
      ProgressValues(outline, t - 1);
      forall p | 0 <= p < t - 1 ensures r.progressLog[p] == Share(p + 1, t) && BelowFull(r.progressLog[p]) {
        ProgressValues(outline, p);
      }
    }
  }

  /** A run that fails stops at its first failed call: the calls before it
      were answered, it made no call after it, it keeps that call's error,
      its book holds the units written before it, and its progress bar
      never filled. */
  lemma GenerationStopsAtFirstFailure(outline: BookOutline, params: Params, writer: Writer)
    ensures var r := Generate(outline, params, writer);
      r.failure.Some? ==>
        && r.completed < TotalSections(outline)
        && AllWritten(outline, params, writer, r.completed)
        && Reply(outline, params, writer, r.completed) == Err(r.failure.value)
        && r.calls == Requests(outline, params)[..r.completed + 1]
        && r.book == BookAfter(outline, params.outputLanguage, Outcomes(outline, params, writer), r.completed)
        && |r.progressLog| == r.completed
        && forall p :: 0 <= p < |r.progressLog| ==> BelowFull(r.progressLog[p])
  {
    var t := TotalSections(outline);
    RunTrace(outline, params, writer, t);
    RunBook(outline, params, writer, t);
    var r := Generate(outline, params, writer);
    if r.failure.Some? {
      forall p | 0 <= p < |r.progressLog| ensures BelowFull(r.progressLog[p]) {
        ProgressValues(outline, p);
      }
    }
  }

  /** The book of a complete run, spelled out: the outline's titles, the
      introduction and the conclusion written from the first and last
      replies, and section `j` of chapter `i` written, under its title from
      the outline, from the reply to call `1 + SectionsBefore(caps, i) + j`. */
  lemma CompleteBook(outline: BookOutline, params: Params, writer: Writer)
    requires AllWritten(outline, params, writer, TotalSections(outline))
    ensures var b := BookAfter(outline, params.outputLanguage, Outcomes(outline, params, writer), TotalSections(outline));
      var caps := outline.capitulos;
      && b.titulo == outline.titulo
      && b.introduccion == Written(outline.introduccion.titulo, Reply(outline, params, writer, 0).value)
      && b.conclusion == Written(outline.conclusion.titulo,
           Reply(outline, params, writer, TotalSections(outline) - 1).value)
      && b.referencias == [] && b.outputLanguage == params.outputLanguage
      && |b.capitulos| == |caps|
      && forall i :: 0 <= i < |caps| ==>
          && b.capitulos[i].titulo == caps[i].titulo
          && b.capitulos[i].secciones == caps[i].secciones
          && b.capitulos[i].referencias == caps[i].referencias
          && b.capitulos[i].contenido.Some?
          && |b.capitulos[i].contenido.value| == |caps[i].secciones|
          && forall j :: 0 <= j < |caps[i].secciones| ==>
               1 + SectionsBefore(caps, i) + j < TotalSections(outline)
               && b.capitulos[i].contenido.value[j]
                  == Written(caps[i].secciones[j], Reply(outline, params, writer, 1 + SectionsBefore(caps, i) + j).value)
  {
    var t := TotalSections(outline);
    var out := Outcomes(outline, params, writer);
    var caps := outline.capitulos;
    var b := BookAfter(outline, params.outputLanguage, out, t);
    assert out[0] == Reply(outline, params, writer, 0);
    assert out[t - 1] == Reply(outline, params, writer, t - 1);
    forall i | 0 <= i < |caps|
      ensures b.capitulos[i].contenido.Some?
      ensures |b.capitulos[i].contenido.value| == |caps[i].secciones|
      ensures forall j :: 0 <= j < |caps[i].secciones| ==>
               1 + SectionsBefore(caps, i) + j < t
               && b.capitulos[i].contenido.value[j]
                  == Written(caps[i].secciones[j], Reply(outline, params, writer, 1 + SectionsBefore(caps, i) + j).value)
    {
      assert b.capitulos[i] == ChapterAt(caps, out, t, i);
      CompleteChapter(outline, params, writer, i);
    }
  }

  /** Chapter `i` of a complete run holds every one of its sections, each
      written from the reply to its own call. */
  lemma CompleteChapter(outline: BookOutline, params: Params, writer: Writer, i: nat)
    requires AllWritten(outline, params, writer, TotalSections(outline))
    requires i < |outline.capitulos|
    ensures var caps := outline.capitulos;
      var c := ChapterAt(caps, Outcomes(outline, params, writer), TotalSections(outline), i);
      && c.contenido.Some?
      && |c.contenido.value| == |caps[i].secciones|
      && forall j :: 0 <= j < |caps[i].secciones| ==>
           1 + SectionsBefore(caps, i) + j < TotalSections(outline)
           && c.contenido.value[j]
              == Written(caps[i].secciones[j], Reply(outline, params, writer, 1 + SectionsBefore(caps, i) + j).value)
  {
    var t := TotalSections(outline);
    var out := Outcomes(outline, params, writer);
    var caps := outline.capitulos;
    AllChaptersDone(caps, t, i);
    SectionsBeforeGrow(caps, i, |caps|);
    assert ChapterAt(caps, out, t, i).contenido == Some(ChapterWritten(caps, out, i, |caps[i].secciones|));
    WrittenSections(outline, params, writer, i);
  }

  /** Every section of chapter `i`, once written in a complete run. */
  lemma WrittenSections(outline: BookOutline, params: Params, writer: Writer, i: nat)
    requires AllWritten(outline, params, writer, TotalSections(outline))
    requires i < |outline.capitulos|
    requires 1 + SectionsBefore(outline.capitulos, i) + |outline.capitulos[i].secciones| <= TotalSections(outline)
    ensures var caps := outline.capitulos;
      var w := ChapterWritten(caps, Outcomes(outline, params, writer), i, |caps[i].secciones|);
      forall j :: 0 <= j < |caps[i].secciones| ==>
        1 + SectionsBefore(caps, i) + j < TotalSections(outline)
        && w[j] == Written(caps[i].secciones[j], Reply(outline, params, writer, 1 + SectionsBefore(caps, i) + j).value)
  {
    var caps := outline.capitulos;
    var out := Outcomes(outline, params, writer);
    var w := ChapterWritten(caps, out, i, |caps[i].secciones|);
    forall j | 0 <= j < |caps[i].secciones|
      ensures 1 + SectionsBefore(caps, i) + j < TotalSections(outline)
      ensures w[j] == Written(caps[i].secciones[j], Reply(outline, params, writer, 1 + SectionsBefore(caps, i) + j).value)
    {
      var k := 1 + SectionsBefore(caps, i) + j;
      assert w[j] == Unit(out, k, caps[i].secciones[j]);
      WrittenUnit(outline, params, writer, k, caps[i].secciones[j]);
    }
  }

  /** A unit of a complete run is stored from the reply to its call. */
  lemma WrittenUnit(outline: BookOutline, params: Params, writer: Writer, k: nat, title: string)
    requires AllWritten(outline, params, writer, TotalSections(outline))
    requires k < TotalSections(outline)
    ensures Unit(Outcomes(outline, params, writer), k, title)
      == Written(title, Reply(outline, params, writer, k).value)
  {
    assert Outcomes(outline, params, writer)[k] == Reply(outline, params, writer, k);
  }

  /** The last value a complete run gives the progress bar is 100%. */
  lemma CompleteRunFillsBar(outline: BookOutline, params: Params, writer: Writer)
    ensures var r := Generate(outline, params, writer);
      r.failure.None? ==> r.completed >= 1 && r.progressLog != [] && r.progressLog[|r.progressLog| - 1] == Percent(100)
  {
    GenerationSucceeds(outline, params, writer);
  }
}
