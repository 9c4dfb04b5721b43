# Book-writing assistant: a verified model of its deterministic core

The assistant is a React page around a generative-language API. The user
gives a topic and a few settings. The service proposes an outline: a title,
an introduction, chapters with section titles, and a conclusion. The page
then writes the book one unit at a time, in order: the introduction, every
section of every chapter, and the conclusion. The finished book can be
exported as a Word document or as an HTML page.

This project models, in Dafny, everything in that flow that does not
depend on the API, React or the browser:

- `Types` (`types.ts`): the shared records. These are the steps of the
  screen, chapters, written sections, the outline and the generated book.
- `Strings`, `Sorting`, `Words`: the JavaScript string behaviour the code
  relies on.
  - `trim` and the `\s` class, with the full ECMAScript whitespace set.
  - `split` with a string separator, and `join`.
  - ASCII and Latin-1 lower-casing, and the decimal form of a number.
  - The default `Array.prototype.sort` order.
  - `countWords`.
- `Gemini` (`services/geminiService.ts`): the text post-processing of a
  reply.
  - `cleanGeneratedText` strips a leading copy of the section title, with
    its regular expression written out by hand.
  - The language-specific separator that splits the text from its
    reference lines.
  - The localized error messages.
  - The two service calls, seen as functions of an abstract API response.
- `Generation` and `GenerationOutcome` (`App.tsx` `handleGenerateBook`):
  the orchestrator.
  - `Generation.WriteBook` and its helpers are imperative methods with the
    source's nested loops.
  - They are proved equal to a step-by-step reference run,
    `Generation.Generate`.
  - `GenerationOutcome` states in closed form what that run yields: the
    calls made, the words counted, the progress reported, and the book
    built, both on success and on the first failure.
- `App` (`App.tsx`): the screen state as a record, and each handler as a
  transition on it.
  - The handlers are outline generation, book generation, export, the two
    reset buttons and dismissing the error.
  - The review page's merged reference list.
- `Export`, `Docx`, `Html` (`services/docxService.ts`,
  `services/htmlService.ts`): the two exporters.
  - Link markup is stripped from references, and references are sorted.
  - The file-name slug and the localized chapter heading.
  - The Word paragraph sequence is built with the source's `push` loops.
  - The HTML page is a tree of elements that renders to text.

The section writer and the outline generator are oracles passed as
parameters. The section API takes the call's index and its request, so it
may answer each call differently. The source's files come from different
revisions, and the model reconciles them as follows:

- Every written section carries its reference list.
- A book carries `outputLanguage` and a book-level `referencias` list.
- A chapter's written content and references are optional.

`App.tsx` calls both services without the two newest arguments. The
screen's model therefore passes the language `"es"`, since the source
only ever compares it with `"en"`, and empty base material.

## Model

| member | source | states |
|---|---|---|
| Types.StepIndex | types.ts:2-7 | the enum's numeric value of a step is one of 0..3 |
| Types.StepsAreFourInOrder | types.ts:2-7 | the steps are exactly Input, Outline, Generating, Review, numbered 0..3 in that order (the two maps are inverse) |
| Strings.Trim | services/geminiService.ts:12-13 | `trim` returns a string with no whitespace at either end, no longer than its input, empty exactly when the input is all whitespace, and an already-trimmed input unchanged |
| Strings.TrimSplit | services/geminiService.ts:12 | the trimmed text is the slice of the input between its leading and its trailing whitespace |
| Strings.CoreUnique | services/geminiService.ts:22 | a slice with non-space ends and only whitespace outside it is what `trim` returns |
| Strings.TrimIgnoresOuterSpace | services/geminiService.ts:22 | whitespace added at either end does not change the trimmed text |
| Strings.TrimSkipsSpace | services/geminiService.ts:20-22 | whitespace skipped by the pattern's trailing `\s*` makes no difference after the final `trim` |
| Strings.SpaceAround | services/geminiService.ts:22 | whitespace outside a slice stays outside it after more whitespace is added at both ends |
| Strings.TrimmedAround | services/geminiService.ts:22 | text between two trimmed, non-empty ends is trimmed |
| Strings.IndexFrom | services/geminiService.ts:222 | `indexOf`: the result is an occurrence of the separator at or after the start, and no earlier position from the start holds one |
| Strings.Split | services/geminiService.ts:222 | `split` with a string separator always yields at least one piece |
| Strings.SplitJoin | services/geminiService.ts:222 | joining the pieces of a split with the separator gives back the input |
| Strings.SplitPiecesFree | services/geminiService.ts:222 | no piece of a split contains the separator |
| Strings.JoinCons | services/geminiService.ts:222 | joining a piece in front of a non-empty list puts the separator between them |
| Strings.NonBlank | services/geminiService.ts:227 | `filter(l => l.trim())` keeps exactly the lines that are not all whitespace, never adding any |
| Strings.NonBlankAppend | services/geminiService.ts:227 | filtering a concatenation is the concatenation of the filtered parts, so the kept lines stay in order and keep their repetitions |
| Strings.NonBlankSingle | services/geminiService.ts:227 | a single line is kept exactly when it is not blank |
| Strings.LowerAll | services/docxService.ts:159 | `toLowerCase` maps every character, keeping the length |
| Strings.Decimal | services/docxService.ts:69 | the decimal form of a number is non-empty, all digits, and has no leading zero |
| Strings.DecimalRoundTrip | services/docxService.ts:69 | reading the decimal form back gives the number |
| Strings.DiffersAt | services/docxService.ts:17 | one differing character rules out a prefix |
| Strings.StartsWithAt | services/docxService.ts:17 | a prefix fixes each of the string's first characters |
| Sorting.BelowIrreflexive | App.tsx:357 | no string sorts strictly before itself under the default sort order |
| Sorting.BelowTransitive | App.tsx:357 | the default sort order is transitive |
| Sorting.BelowTotal | App.tsx:357 | any two different strings are ordered one way or the other |
| Sorting.BelowAsymmetric | App.tsx:357 | the order is strict: never both ways |
| Sorting.AtMostAntisymmetric | App.tsx:357 | two strings each at most the other are equal |
| Sorting.SortedCons | App.tsx:357 | a string no greater than any element of a sorted list can go in front |
| Sorting.BelowFirst | App.tsx:357 | a string at most the first element of a sorted list is at most every element |
| Sorting.FirstStays | App.tsx:357 | inserting a larger string keeps the smallest element in front |
| Sorting.Insert | App.tsx:357 | inserting into a sorted list keeps it sorted and adds exactly that string |
| Sorting.Sort | App.tsx:357 | `sort()` returns a sorted permutation of its input |
| Sorting.HeadsEqual | App.tsx:357 | two sorted permutations of each other start with the same string |
| Sorting.Rest | App.tsx:357 | the tail of a sorted list is sorted and holds the rest of its elements |
| Sorting.SortedUnique | App.tsx:357 | a sorted permutation is unique, so any correct sort gives the same list |
| Sorting.Dedup | App.tsx:352-356 | `new Set`: no duplicates, and exactly the input's elements |
| Sorting.SortKeepsNoDuplicates | App.tsx:351-357 | sorting a duplicate-free list keeps it duplicate-free, so it is strictly increasing |
| Sorting.MultiplicityAtLeastTwo | App.tsx:352-356 | a string at two indices occurs at least twice |
| Sorting.MultiplicityAtMostOne | App.tsx:352-356 | in a duplicate-free list every string occurs at most once |
| Words.NextSpace | App.tsx:54 | the first whitespace character at or after a position, with none skipped |
| Words.SplitOnSpace | App.tsx:54 | `split(/\s+/)` always yields at least one piece |
| Words.CountWords | App.tsx:53-55 | `countWords` never returns less than 1 |
| Words.SplitOnce | App.tsx:54 | one separator run adds exactly one piece to the split |
| Words.SpacePrefix | App.tsx:54 | leading whitespace adds no word |
| Words.SpaceSuffix | App.tsx:54 | trailing whitespace adds no word |
| Words.AllSpaceNoWords | App.tsx:54 | whitespace alone holds no word |
| Words.WordThenSpace | App.tsx:54 | a run of non-space characters followed by whitespace or the end is one word |
| Words.FirstWord | App.tsx:54 | a first word followed by whitespace counts one, plus the words after it |
| Words.PiecesAreWords | App.tsx:54 | on trimmed non-empty text, the pieces of `split(/\s+/)` are exactly its words |
| Words.WordsAround | App.tsx:54 | whitespace around a text adds no word |
| Words.TrimKeepsWords | App.tsx:54 | trimming does not change the number of words |
| Words.CountWordsCountsWords | App.tsx:53-55 | `countWords` is the number of whitespace-separated words, and 1 for text that is empty or all whitespace |
| Gemini.HashRun | services/geminiService.ts:20 | the run of `#` at the start of the text, maximal |
| Gemini.SpaceRun | services/geminiService.ts:20 | the run of whitespace at a position, maximal |
| Gemini.HeadingTitleEnd | services/geminiService.ts:20 | the `#+\s*TITLE` alternative with backtracking over the hashes: a match ends past the title, inside the text |
| Gemini.TitleEnd | services/geminiService.ts:20 | the title pattern anchored at the start: a match ends inside the text, past at least the title's length |
| Gemini.HeadingTitleEndNone | services/geminiService.ts:20 | the `#+\s*TITLE` alternative fails exactly when the title follows no number of leading hashes, from one up to all of them, and the whitespace after them |
| Gemini.TitleEndNone | services/geminiService.ts:20 | the title pattern fails exactly when the title is neither at the start nor after any run of leading hashes and its whitespace |
| Gemini.TitleCut | services/geminiService.ts:20 | the cut made by the pattern with its `\s*\n?` tail lies inside the text |
| Gemini.CleanGeneratedText | services/geminiService.ts:11-23 | the result is trimmed and no longer than the text, and a blank title only trims the text |
| Gemini.LowerKeepsKind | services/geminiService.ts:20 | case folding never turns a character into or out of whitespace or `#` |
| Gemini.CleanAfterMatch | services/geminiService.ts:20-22 | once the pattern matches, the result is the trimmed rest after the match |
| Gemini.TitleEndAtStart | services/geminiService.ts:20 | text starting with the title, in any case, matches up to the end of the title |
| Gemini.CleanStripsLeadingTitle | services/geminiService.ts:19-22 | a leading copy of the title, in any case, is removed together with the whitespace after it |
| Gemini.HashRunOf | services/geminiService.ts:20 | hashes followed by a non-`#` character give a run of exactly that length |
| Gemini.HeadingHashes | services/geminiService.ts:20 | a heading line's hash run is its marker |
| Gemini.HeadingSpace | services/geminiService.ts:20 | the whitespace after a heading marker is matched by `\s*` in full |
| Gemini.HeadingParts | services/geminiService.ts:20 | a heading line `#…# TITLE rest` splits as the pattern sees it: marker, whitespace, title, rest |
| Gemini.HeadingMatch | services/geminiService.ts:20 | hashes, whitespace and the title make the pattern match just past the title |
| Gemini.CleanStripsHeadingTitle | services/geminiService.ts:19-22 | a Markdown heading `#…# title` at the start is removed and the rest is returned trimmed |
| Gemini.SpaceRunAt | services/geminiService.ts:20 | whitespace of a given length before a non-space is the whole run |
| Gemini.CleanLeavesOtherText | services/geminiService.ts:20-22 | text that starts neither with `#` nor with the title is only trimmed |
| Gemini.CleanWithoutMatch | services/geminiService.ts:20-22 | text in which the title pattern has no match, neither at the start nor after leading hashes and whitespace, is only trimmed |
| Gemini.CleanNoCut | services/geminiService.ts:20-22 | when the title pattern does not match, the cleaned text is the trimmed text |
| Gemini.CleanAfterTitle | services/geminiService.ts:20-22 | text made of the title and a tail loses exactly the title and whitespace after it |
| Gemini.CleanRemovesOnlyOneCopy | services/geminiService.ts:20-22 | the pattern is applied once: of two leading copies of the title, the second stays |
| Gemini.CleanCutsInsideAWord | services/geminiService.ts:20-22 | the pattern has no word boundary: a title that is the start of a longer first word is cut off that word |
| Gemini.ReferenceSeparator | services/geminiService.ts:184 | the separator is `###REFERENCES###` exactly for "en" and `###REFERENCIAS###` otherwise |
| Gemini.SectionErrorMessage | services/geminiService.ts:233-235 | the message quotes the section title, and is English exactly for "en" |
| Gemini.OutlineErrorMessage | services/geminiService.ts:125 | the message is non-empty, and English exactly for "en" |
| Gemini.SplitResponse | services/geminiService.ts:222 | the destructured `split`: the text is everything before the first separator; the reference block exists exactly when a separator occurs, and is what lies between the first and the second |
| Gemini.FirstPiece | services/geminiService.ts:222 | the first piece of a split is a prefix ending at the end or at the first separator |
| Gemini.ParseReferences | services/geminiService.ts:226-228 | no block gives no references; otherwise the non-blank lines of the trimmed block, in order and with repetitions (the filter of `Strings.NonBlank`, an empty block included), each without a newline |
| Gemini.GenerateSectionContent | services/geminiService.ts:219-236 | fails exactly when the API fails, with the localized message; otherwise the text is the cleaned part before the separator and the references are those parsed from the part after it, with the grounding chunks; the text is trimmed, the references non-blank single lines, and with no separator there are no references and the whole reply is cleaned |
| Gemini.GenerateBookOutline | services/geminiService.ts:121-127 | succeeds exactly when the API answers, with its outline; fails with the localized message |
| Export.IndexOfChar | services/docxService.ts:96 | the first index of a character from a position on, with none skipped |
| Export.LinkAt | services/docxService.ts:96 | `\[([^\]]+)\]\([^)]+\)` at the start: non-empty text without `]` and a non-empty target without `)` |
| Export.StripLinks | services/docxService.ts:96 | the global replace never lengthens the text |
| Export.StripLinksNoBracket | services/docxService.ts:96 | text without `[` is unchanged |
| Export.StripLinksKeepsPrefix | services/docxService.ts:96 | text before the first `[` is kept as it is |
| Export.IndexOfCharAt | services/docxService.ts:96 | the first occurrence found is the first one present |
| Export.LinkAtOf | services/docxService.ts:96 | a well-formed `[text](url)` at the start is matched exactly to its closing parenthesis |
| Export.StripLinksAt | services/docxService.ts:96 | a matched link is replaced by its text, and the scan goes on after it |
| Export.StripLinksAtLink | services/docxService.ts:96 | `[text](url)` followed by more text becomes `text` followed by the stripped rest |
| Export.StripLinksReplacesLink | services/docxService.ts:96 | a link in the middle of a reference is replaced by its text, and the text before it is kept |
| Export.StripLinksKeepsUnlinked | services/docxService.ts:96 | text at none of whose positions a link starts is kept as it is, brackets included, and the scan goes on after it |
| Export.StripLinksNoLinkStep | services/docxService.ts:96 | where no link starts, the first character is copied and the scan moves on by one |
| Export.StripLinksKeepsCitation | services/docxService.ts:96 | a bracketed mark such as `[1] ` is not a link and stays, and the link after it is replaced by its text (`[1] [a](b)` becomes `[1] a`) |
| Export.CitationNoLink | services/docxService.ts:96 | no link starts inside a bracketed mark followed by a space |
| Export.NonWordRun | services/docxService.ts:159 | the maximal run of characters outside `\w` at the start |
| Export.CollapseNonWord | services/docxService.ts:159 | only word characters remain, and the result is no longer than the text |
| Export.Slug | services/docxService.ts:159 | the file-name stem has only lower-case ASCII letters, digits and `_`, and is no longer than the title |
| Export.LowerWordChar | services/docxService.ts:159 | after lower-casing, the collapsed text has no upper-case letters |
| Export.CollapseWordText | services/docxService.ts:159 | text made of word characters is not changed by the collapse |
| Export.NonWordRunOf | services/docxService.ts:159 | a run of non-word characters is measured up to the next word character or the end |
| Export.CollapseRun | services/docxService.ts:159 | word characters before a maximal run of non-word characters are kept, and the whole run becomes exactly one `_` |
| Export.CollapseWordPrefix | services/docxService.ts:159 | word characters at the front are copied unchanged |
| Export.CollapseRunStart | services/docxService.ts:159 | a maximal run of non-word characters at the front becomes exactly one `_` |
| Export.SlugRun | services/docxService.ts:159 | in a title, lower-case word characters before a maximal run of whitespace or punctuation are kept and the run becomes one `_` |
| Export.SlugOfSlugText | services/docxService.ts:159 | a valid stem is its own slug |
| Export.SlugIdempotent | services/docxService.ts:159 | slugging a slug changes nothing |
| Export.FileName | services/docxService.ts:159 | a download name is the slug of the title followed by the extension (`.docx` here, `.html` in services/htmlService.ts:130) |
| Export.ChapterWord | services/docxService.ts:69 | "Chapter" exactly for "en", and "Capítulo" otherwise |
| Export.ChapterHeading | services/docxService.ts:69 | the heading starts with the localized word and a space, and ends with `: ` and the chapter title |
| Export.DigitRun | services/docxService.ts:69 | the run of digits at the start |
| Export.DigitRunOf | services/docxService.ts:69 | digits followed by a non-digit give a run of exactly that length |
| Export.DigitsColonUnique | services/docxService.ts:69 | a number then `: ` then a title splits in only one way |
| Export.ChapterHeadingInjective | services/docxService.ts:69 | two equal chapter headings have the same number and the same title |
| Export.ReferencesTitle | services/docxService.ts:92 | "References" exactly for "en", and "Referencias" otherwise |
| Export.StripAll | services/docxService.ts:94-98 | link markup is stripped from each reference, in order |
| Export.PreparedReferences | services/docxService.ts:88-98 | the references as exported: the sorted list, each entry with its links stripped, a permutation of the stripped input |
| Export.StripAllAppend | services/docxService.ts:94-98 | stripping distributes over concatenation |
| Export.RemoveOne | services/docxService.ts:88 | removing the same string from two equal multisets keeps them equal |
| Export.StripAllPermutes | services/docxService.ts:88-98 | stripping a permutation gives a permutation of the stripped list |
| Docx.FindStar | services/docxService.ts:30 | the lazy `.*?\*`: the first `*` with no line terminator before it |
| Docx.FindDoubleStar | services/docxService.ts:30 | the lazy `.*?\*\*`: the first `**` with no line terminator before it |
| Docx.MatchAt | services/docxService.ts:30 | `\*\*.*?\*\*` first, then `\*.*?\*`: a match starts and ends with `*` and has at least two characters |
| Docx.NextMatch | services/docxService.ts:30 | the leftmost match from a position on, with no match at any earlier position |
| Docx.Pieces | services/docxService.ts:30 | `split` with a capturing pattern keeps the delimiters: the pieces concatenate back to the text |
| Docx.NonEmpty | services/docxService.ts:30 | `filter(p => p)` drops the empty pieces and keeps the concatenation |
| Docx.Parts | services/docxService.ts:30 | the pieces of a line concatenate back to the line, and none is empty |
| Docx.SliceInner | services/docxService.ts:35-38 | `slice(a, -b)` is the text between the first `a` and the last `b` characters, and empty when those overlap |
| Docx.ClassifyPart | services/docxService.ts:33-42 | bold exactly for `**…**`, italic exactly for `*…*` that is not bold, each with its inner text; plain runs keep the piece |
| Docx.Runs | services/docxService.ts:32-43 | one run per piece |
| Docx.RunsAt | services/docxService.ts:32-43 | the run of each piece is that piece's classification |
| Docx.LineParagraph | services/docxService.ts:13-47 | a line becomes a heading or a normal paragraph, never a page break or a reference |
| Docx.CreateStyledParagraphFromLine | services/docxService.ts:13-47 | the method with the source's push loop builds exactly the paragraph of the line |
| Docx.PushRuns | services/docxService.ts:28-43 | the loop pushes exactly the runs of the pieces, in order |
| Docx.HeadingIff | services/docxService.ts:14-25 | a heading exactly when the trimmed line starts with `# `, `## ` or `### `, at that level and with that prefix removed |
| Docx.NotAHeading | services/docxService.ts:17-46 | `#` not followed by a space or `#`, or four or more `#`, gives a normal paragraph |
| Docx.BodyRunsCoverLine | services/docxService.ts:30-46 | a normal paragraph has one run per non-empty piece, and the pieces concatenate to the trimmed line |
| Docx.PlainLine | services/docxService.ts:30-46 | a line without `*` that is not a heading is one plain run of the trimmed line |
| Docx.NoStarNoMatch | services/docxService.ts:30 | text without `*` has no match |
| Docx.BoldLine | services/docxService.ts:30-46 | `**w**` is one bold run of `w` |
| Docx.StarLineIsBody | services/docxService.ts:17-46 | a trimmed line starting with `*` is a normal paragraph of its runs |
| Docx.BoldParts | services/docxService.ts:30 | `**w**` splits into itself alone |
| Docx.BoldMatch | services/docxService.ts:30 | `**w**` matches as a whole |
| Docx.NonEmptyAround | services/docxService.ts:30 | the empty pieces around a delimiter are dropped |
| Docx.BoldPart | services/docxService.ts:33-35 | `**w**` classifies as bold with text `w` |
| Docx.DoubleStarAt | services/docxService.ts:30 | the closing `**` at the end is the one found |
| Docx.LinesParagraphs | services/docxService.ts:61-63 | one paragraph per line |
| Docx.LinesParagraphsStep | services/docxService.ts:61-63 | one more line appends its paragraph |
| Docx.LinesParagraphsAt | services/docxService.ts:61-63 | the i-th paragraph is made from the i-th line |
| Docx.LinesParagraphsIndex | services/docxService.ts:61-63 | the paragraph at a given index is made from the line at that index |
| Docx.TextParagraphs | services/docxService.ts:61 | one paragraph for each non-blank line of the text, the i-th made from the i-th such line |
| Docx.SectionsParagraphsStep | services/docxService.ts:72-77 | one more section appends its Heading2 and its lines |
| Docx.ChaptersParagraphsStep | services/docxService.ts:66-78 | one more chapter appends a page break, its numbered heading (1-based) and its sections |
| Docx.ReferenceEntries | services/docxService.ts:94-98 | one entry per reference |
| Docx.ReferenceEntriesStep | services/docxService.ts:94-98 | one more reference appends its stripped entry |
| Docx.ReferenceEntriesAt | services/docxService.ts:94-98 | entry `i` is reference `i` with its links stripped |
| Docx.ReferencePage | services/docxService.ts:88-100 | no page for no references; otherwise a page break, the localized heading and the sorted, link-stripped entries |
| Docx.PushLines | services/docxService.ts:61-63 | the loop appends the paragraphs of the lines |
| Docx.PushTextLines | services/docxService.ts:61-63 | appends the paragraphs of the text's non-blank lines |
| Docx.PushSection | services/docxService.ts:72-76 | appends the section's heading and paragraphs |
| Docx.PushSections | services/docxService.ts:72-77 | the loop appends every section in order |
| Docx.PushChapter | services/docxService.ts:66-77 | appends the chapter's page break, heading and sections |
| Docx.PushChapters | services/docxService.ts:66-78 | the loop appends every chapter in order, numbered from 1 |
| Docx.PushReferences | services/docxService.ts:88-100 | appends the reference page |
| Docx.ExportToDocx | services/docxService.ts:49-159 | the paragraphs are title, intro, chapters, conclusion and references in that order; the file name is the `.docx` slug |
| Html.RenderAllHas | services/htmlService.ts:22-38 | the joined markup of a list holds each element's markup |
| Html.RenderHasChild | services/htmlService.ts:7-52 | an element's markup holds each child's markup, after the opening tag |
| Html.RenderLeaf | services/htmlService.ts:9 | a leaf is its opening tag, its text verbatim and its closing tag |
| Html.ReferenceBlock | services/htmlService.ts:14-19 | a block exactly when there are references: the localized heading and one paragraph per sorted, link-stripped reference |
| Html.OptionalReferenceBlock | services/htmlService.ts:31-36 | a block exactly when the list is present and non-empty |
| Html.ChapterBody | services/htmlService.ts:25-30 | the sections in order, or the text `undefined` when the chapter has no content |
| Html.ChapterNodes | services/htmlService.ts:22-38 | one `<section>` per chapter, in order, numbered from 1 |
| Html.LangAttribute | services/htmlService.ts:56 | `en` exactly for "en", and `es` otherwise |
| Html.ArticleLayout | services/htmlService.ts:7-52 | the article holds the title, the introduction, the chapters in order and numbered from 1, and the conclusion |
| Html.PageHasArticle | services/htmlService.ts:54-118 | the page holds the article's markup |
| Html.TitleVerbatim | services/htmlService.ts:9 | the book title appears unescaped right after `<h1 class="book-title">` |
| Html.SectionTextVerbatim | services/htmlService.ts:28 | a section's text appears unescaped right after `<div class="content">` |
| Html.ChapterInPage | services/htmlService.ts:22-38 | every chapter's markup appears in the page |
| Html.ChapterInArticle | services/htmlService.ts:22-38 | every chapter's markup appears in the article |
| Html.ArticleChapter | services/htmlService.ts:22-24 | chapter `c` is the article's child `c + 2`, numbered `c + 1` |
| Html.SectionInChapter | services/htmlService.ts:25-30 | every section's markup appears in its chapter's |
| Html.MissingContentShowsUndefined | services/htmlService.ts:25-30 | a chapter without content shows `undefined` right after its heading |
| Html.UndefinedInSection | services/htmlService.ts:23-30 | the word `undefined` follows the section's first child |
| Html.ExportToHtml | services/htmlService.ts:121-130 | the page of the book, and the `.html` slug as the file name |
| Generation.SectionsBeforeGrow | App.tsx:73 | a later chapter starts after all the sections of an earlier one |
| Generation.TotalSections | App.tsx:73 | `totalSections` is at least 2 (introduction and conclusion) |
| Generation.RoundedQuotient | App.tsx:74 | `Math.round(a / b)` as the integer nearest to a/b, with halves rounded up |
| Generation.WordsPerSection | App.tsx:74 | the word budget is the target divided by `totalSections`, rounded to nearest |
| Generation.ChapterSlots | App.tsx:89-95 | one slot per section of the chapters so far |
| Generation.ChapterSlotsLayout | App.tsx:89-95 | section `j` of chapter `i` is unit `SectionsBefore(i) + j` of the chapter loops |
| Generation.Slots | App.tsx:78-109 | one unit per section in `totalSections` |
| Generation.SlotsLayout | App.tsx:78-109 | the order is introduction, then every chapter's sections in order, then the conclusion |
| Generation.SlotOfSection | App.tsx:89-95 | section `j` of chapter `i` is unit `1 + SectionsBefore(i) + j`, before the conclusion |
| Generation.Request | App.tsx:80-109 | each call names the book, its chapter and section titles and the shared word budget ("Introducción"/"Conclusión" for the two ends) |
| Generation.Requests | App.tsx:80-109 | one call per unit |
| Generation.RunNext | App.tsx:77-117 | the run after one more unit is one more step |
| Generation.ShapeKept | App.tsx:63-68 | at every point of a run the book has the outline's titles, chapters, section titles and references |
| Generation.PlaceKeepsShape | App.tsx:81-110 | storing a written unit changes no title |
| Generation.StepEffect | App.tsx:80-114 | one unit makes one more call; success counts it, adds its words and reports progress; failure records the message and nothing else |
| Generation.TraceWritten | App.tsx:80-100 | a successful unit keeps the run's account of calls, counts and values |
| Generation.CallsStep | App.tsx:80-95 | the calls so far are the first requests of the fixed order |
| Generation.CountsWritten | App.tsx:84-99 | after a success the completed count is the number of units |
| Generation.CountsFailed | App.tsx:119-120 | after a failure the completed count stops at the failing unit |
| Generation.ValuesWritten | App.tsx:82-100 | the words are the sum of the counts of the texts written, and the progress log has one entry per written unit |
| Generation.TraceFailed | App.tsx:119-120 | a failing unit keeps the run's account |
| Generation.TraceStep | App.tsx:77-117 | every step keeps the run's account |
| Generation.TraceStart | App.tsx:63-75 | the empty run starts with the account |
| Generation.TraceNext | App.tsx:77-117 | the account carries from one unit to the next |
| Generation.RunTrace | App.tsx:77-117 | after every unit: calls made in order, completed count, words and progress are as the units so far dictate |
| Generation.FailureIsFinal | App.tsx:119-121 | after a failure nothing else happens: the final run is the failed one |
| Generation.IntroStep | App.tsx:78-86 | the introduction's call and what a success or failure does to the run |
| Generation.SectionStep | App.tsx:92-103 | a section's call and its effect: appended to its chapter under the outline's section title |
| Generation.ConclusionStep | App.tsx:107-114 | the conclusion's call, and a success setting progress to exactly 100 |
| Generation.ConclusionRun | App.tsx:107-116 | after the chapters, the whole run is the conclusion's step |
| Generation.WriteBook | App.tsx:57-126 | the imperative nested loops compute exactly the reference run |
| Generation.WriteIntroduction | App.tsx:78-86 | the introduction: either the final failed run, or ready for the first chapter |
| Generation.WriteChapter | App.tsx:89-105 | one chapter's loop: either the final failed run, or ready for the next chapter |
| Generation.ChapterOpens | App.tsx:90-91 | a chapter starts with no sections written |
| Generation.ChapterCloses | App.tsx:104-105 | a chapter with all its sections written leaves the run ready for the next |
| Generation.WriteSection | App.tsx:92-103 | one loop body: either the final failed run, or section `j` appended |
| Generation.WriteConclusion | App.tsx:107-116 | the conclusion finishes the reference run |
| GenerationOutcome.Outcomes | App.tsx:80-109 | one outcome per unit |
| GenerationOutcome.SectionsWritten | App.tsx:89-103 | no more than the chapter's sections are written |
| GenerationOutcome.ChapterWritten | App.tsx:91-103 | the first `m` sections of a chapter |
| GenerationOutcome.StartBook | App.tsx:63-68 | the skeleton is the book after no unit |
| GenerationOutcome.PlaceIntro | App.tsx:81 | writing the introduction gives the book after one unit |
| GenerationOutcome.AllChaptersDone | App.tsx:89-105 | once the chapters are written, each chapter holds all its sections |
| GenerationOutcome.PlaceConclusion | App.tsx:110 | writing the conclusion gives the final book |
| GenerationOutcome.OtherChapterUnchanged | App.tsx:102 | a section leaves the other chapters' counts as they were |
| GenerationOutcome.ChapterGrows | App.tsx:96 | a written section is appended after its chapter's earlier ones |
| GenerationOutcome.ChapterStep | App.tsx:96-102 | a section grows its own chapter by one and leaves every other chapter unchanged |
| GenerationOutcome.PlaceSection | App.tsx:96-102 | writing a section gives the book after one more unit |
| GenerationOutcome.PlaceNext | App.tsx:81-110 | writing unit `c` gives the book after `c + 1` units |
| GenerationOutcome.BookStep | App.tsx:77-117 | each successful step moves the book to its closed form after one more unit |
| GenerationOutcome.CompletedSoFar | App.tsx:84-113 | without a failure, the completed count is the number of units run |
| GenerationOutcome.RunBook | App.tsx:63-117 | at every point the book is: earlier chapters complete, the current one up to its last written section, later ones empty, titles from the outline |
| GenerationOutcome.ProgressValues | App.tsx:85-114 | progress after unit `p` is (p+1)/total and strictly below 100, except after the conclusion, where it is exactly 100 |
| GenerationOutcome.GenerationSucceeds | App.tsx:77-117 | a run succeeds exactly when every call does; then every unit is called once in order, the words are the sum, the book is complete, and progress rises to exactly 100 |
| GenerationOutcome.GenerationStopsAtFirstFailure | App.tsx:119-121 | a failure stops at the first failing call: later units are never called, the book holds what was written, and progress stays below 100 |
| GenerationOutcome.CompleteBook | App.tsx:63-116 | the finished book holds every reply under its outline title, in outline order |
| GenerationOutcome.CompleteChapter | App.tsx:89-105 | a finished chapter holds each of its sections' replies in order |
| GenerationOutcome.WrittenSections | App.tsx:91-103 | each written section of a finished chapter is its call's reply |
| GenerationOutcome.WrittenUnit | App.tsx:81-110 | a unit that succeeded holds its reply under its title |
| GenerationOutcome.CompleteRunFillsBar | App.tsx:113-117 | a successful run completes at least one unit and its last progress is exactly 100 |
| App.MessageOr | App.tsx:45 | `e.message \|\| fallback`: the message if non-empty, otherwise the fallback |
| App.OutlineErrorHasText | App.tsx:44-45 | the outline failure shows the service's own message, never the fallback |
| App.SectionServiceErrors | services/geminiService.ts:231-236 | a section call fails exactly when the API fails, with a non-empty message naming the section |
| App.LastProgress | App.tsx:85-100 | the progress left on screen is the last one reported, or the earlier one when none was |
| App.ChapterReferencesHas | App.tsx:354 | a chapter's flattened references are exactly those of its sections |
| App.SectionReferencesHas | App.tsx:354 | the flattened references of all chapters are exactly those of their sections |
| App.ReviewReferences | App.tsx:351-357 | the review list is strictly increasing, so sorted and duplicate-free, and holds exactly the introduction's, the sections' and the conclusion's references |
| App.ReviewReferencesUnion | App.tsx:351-357 | a reference is listed exactly when the introduction, the conclusion or some written section cites it |
| App.Opening | App.tsx:16-29 | the page opens on the input step with the default settings and nothing else set |
| App.Settings | App.tsx:80 | every call is made in Spanish and without base material |
| App.HandleGenerateOutline | App.tsx:31-51 | a blank topic only sets the error; otherwise one call, success shows the outline on the Outline step, failure keeps the step and shows the message; loading and progress are reset |
| App.HandleGenerateBook | App.tsx:57-126 | with no outline nothing happens; otherwise the run is the reference run and the screen is as `BookScreen` describes |
| App.HandleExport | App.tsx:128-132 | a download exactly when a book is on screen: its Word paragraphs and `.docx` name |
| App.BackToEdit | App.tsx:279 | back to the input step with no outline, everything else kept |
| App.StartNewBook | App.tsx:364 | back to the input step with no topic, outline or book and no words, settings kept |
| App.DismissError | App.tsx:397 | the error is cleared and nothing else changes |
| App.FailedRunNamesSection | App.tsx:119-121 | a failed run's error names the section whose call failed |
| App.FailedRunScreen | App.tsx:119-121 | after a failure the progress stays below 100 and the run's book holds exactly the units completed before the failed call; the screen shows it when at least one unit completed (App.tsx:86), and otherwise keeps its earlier book |

## Left out

- The API calls themselves, the `API_KEY` check, the response schema, the prompt texts and the console logging are not modelled. The two services are oracles: an outline or nothing, and per call a response or nothing.
- JSON parsing of the outline reply is not modelled; the outline oracle returns the parsed record.
- React rendering, `useState`, `useCallback` and `async`/`await` are not modelled. A handler is a transition from the screen it starts on to the screen it leaves. The renders between two awaits, such as the partial book shown while writing and `currentTask` during the run, are not part of the model.
- The form's input setters are plain field updates and have no member of their own.
- The `docx` library, the document styles, `Packer`, Blob, URL and the DOM download code are not modelled. A Word document is the list of paragraphs pushed into `children`, and a download is that list with its file name.
- The HTML page's `<head>` meta tags and CSS are not modelled, and whitespace between tags is dropped. The model keeps the `lang` attribute, the `<title>` and the body.
- Progress is modelled as the exact fraction `Share(done, total)` or `Percent(100)`, not as a floating-point percentage.
- `Sorting.Sort` models `Array.prototype.sort()`, which sorts the book's reference arrays in place. The model sorts a copy, so the aliasing side effect on the book is not captured.
- The default sort compares UTF-16 code units. The model compares characters, which agrees except for characters outside the Basic Multilingual Plane.
- `Strings.LowerAll` models `toLowerCase` only for ASCII and Latin-1 letters. Other scripts are left unchanged.
- Case-insensitive regular-expression matching folds the same way as `LowerAll`.
- `Generation.WordsPerSection` drops the `totalSections > 0 ? … : 0` guard, because `totalSections` is always at least 2 (`Generation.TotalSections`).
- `App.tsx` passes neither an output language nor base material to the services, so the screen's model uses `"es"` and `""`. The services' own members take both as parameters.
- `GeneratedBook` in types.ts has no `referencias` field, and the page's book (App.tsx:63-68) has none. As written, `book.referencias.sort()` at services/docxService.ts:88 therefore throws a TypeError inside the async `exportToDocx`, and nothing downloads. The model gives the book a reference list, and the page's book carries `[]` there. The Word export's reference page is modelled for any list but never appears for a generated book.
- App.HandleExport: "a download exactly when a book is on screen" holds for the book with its `[]` reference list; the source as written throws at services/docxService.ts:88 instead and downloads nothing.
- The grounding chunks are carried along unchanged and never inspected.
- The Word export pushes the title and introduction paragraphs in one list (`Docx.FrontParagraphs`) rather than one `push` at a time.
- The section and outline oracles are indexed by the call's position in the run. Retries and concurrent runs are not modelled.
