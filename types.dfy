/** The records every part of the assistant shares (types.ts). Field names
    are the application's own (Spanish) ones. Where the record declarations
    and their users disagree, the fields the users read are included:
    every `SectionContent` carries its reference lines, a `GeneratedBook`
    carries its consolidated reference list and its output language. */
module Types {
  import opened Wrappers

  /** The four screens, in the order the user meets them. */
  datatype AppStep = Input | Outline | Generating | Review

  /** The position of a step in the enum declaration. */
  function StepIndex(s: AppStep): (n: nat)
    ensures n < 4
  {
    match s
    case Input => 0
    case Outline => 1
    case Generating => 2
    case Review => 3
  }

  function StepAt(n: nat): (s: AppStep)
    requires n < 4
  {
    if n == 0 then Input else if n == 1 then Outline else if n == 2 then Generating else Review
  }

  /** There are exactly four steps, numbered 0 to 3 in declaration order. */
  lemma StepsAreFourInOrder(s: AppStep, n: nat)
    requires n < 4
    ensures StepAt(StepIndex(s)) == s
    ensures StepIndex(StepAt(n)) == n
  {
  }

  /** A web source reported by the search grounding; every part may be absent. */
  datatype WebSource = WebSource(uri: Option<string>, title: Option<string>)

  datatype GroundingChunk = GroundingChunk(web: Option<WebSource>)

  /** One written unit: the introduction, a chapter section or the conclusion. */
  datatype SectionContent = SectionContent(
    titulo: string,
    texto: string,
    referencias: seq<string>,
    fuentes: seq<GroundingChunk>)

  /** A chapter: its title and ordered section titles; once writing has
      started also the written sections. */
  datatype Chapter = Chapter(
    titulo: string,
    secciones: seq<string>,
    contenido: Option<seq<SectionContent>>,
    referencias: Option<seq<string>>)

  /** The `{ titulo }` records of the introduction and the conclusion. */
  datatype Heading = Heading(titulo: string)

  datatype BookOutline = BookOutline(
    titulo: string,
    introduccion: Heading,
    capitulos: seq<Chapter>,
    conclusion: Heading)

  datatype GeneratedBook = GeneratedBook(
    titulo: string,
    introduccion: SectionContent,
    capitulos: seq<Chapter>,
    conclusion: SectionContent,
    referencias: seq<string>,
    outputLanguage: string)

  /** Every language test in the code is `outputLanguage === 'en'`; any
      other value means Spanish. */
  predicate IsEnglish(lang: string) {
    lang == "en"
  }
}
