/** The HTML export (services/htmlService.ts): the book becomes one page
    whose article holds the title, the introduction, one section per
    chapter and the conclusion. The page is a tree of elements and text
    that renders to a string; the indentation of the template and the
    style sheet are not part of the model. */
module Html {
  import opened Wrappers
  import opened Strings
  import opened Sorting
  import opened Types
  import opened Export

  /** An element with its tag, its `class` (empty when it has none) and its
      children, or text inserted as it is. */
  datatype Node =
    | Element(tag: string, cls: string, children: seq<Node>)
    | Text(text: string)

  function OpenTag(tag: string, cls: string): string {
    if cls == [] then "<" + tag + ">" else "<" + tag + " class=\"" + cls + "\">"
  }

  function CloseTag(tag: string): string {
    "</" + tag + ">"
  }

  /** The markup of a node: text is copied without any escaping. */
  function Render(n: Node): string
    decreases n
  {
    match n
    case Text(t) => t
    case Element(tag, cls, kids) => OpenTag(tag, cls) + RenderAll(kids) + CloseTag(tag)
  }

  /** The markup of a list of nodes, joined with nothing in between. */
  function RenderAll(ns: seq<Node>): string
    decreases ns
  {
    if ns == [] then [] else Render(ns[0]) + RenderAll(ns[1..])
  }

  /** The markup of every node of a list appears whole inside the markup of
      the list. */
  lemma {:induction false} RenderAllHas(ns: seq<Node>, i: nat) returns (pre: string, post: string)
    requires i < |ns|
    ensures RenderAll(ns) == pre + Render(ns[i]) + post
    decreases i
  {
    if i == 0 {
      pre, post := [], RenderAll(ns[1..]);
    } else {
      var p, q := RenderAllHas(ns[1..], i - 1);
      pre, post := Render(ns[0]) + p, q;
    }
  }

  /** Text placed inside text placed inside text. */
  lemma Nested(p1: string, q1: string, p2: string, q2: string, x: string)
    ensures p1 + (p2 + x + q2) + q1 == (p1 + p2) + x + (q2 + q1)
  {
  }

  /** The markup of a child appears whole inside its parent's markup. */
  lemma RenderHasChild(n: Node, i: nat) returns (pre: string, post: string)
    requires n.Element? && i < |n.children|
    ensures Render(n) == pre + Render(n.children[i]) + post
    ensures StartsWith(pre, OpenTag(n.tag, n.cls))
  {
    var p, q := RenderAllHas(n.children, i);
    Nested(OpenTag(n.tag, n.cls), CloseTag(n.tag), p, q, Render(n.children[i]));
    pre, post := OpenTag(n.tag, n.cls) + p, q + CloseTag(n.tag);
    assert pre[..|OpenTag(n.tag, n.cls)|] == OpenTag(n.tag, n.cls);
  }

  /** A one-text element. */
  function Leaf(tag: string, cls: string, text: string): Node {
    Element(tag, cls, [Text(text)])
  }

  lemma RenderLeaf(tag: string, cls: string, text: string)
    ensures Render(Leaf(tag, cls, text)) == OpenTag(tag, cls) + text + CloseTag(tag)
  {
    var kids := [Text(text)];
    assert kids[1..] == [];
    assert RenderAll(kids) == text + [];
  }

  /** The `<h3 class="h2">` heading and the `<div class="references">`
      list of a part, present exactly when the list is not empty; one
      `<p>` per reference, sorted, links stripped. */
  function ReferenceBlock(lang: string, refs: seq<string>): (ns: seq<Node>)
    ensures ns == [] <==> refs == []
    ensures ns != [] ==>
      && |ns| == 2 && ns[0] == Leaf("h3", "h2", ReferencesTitle(lang))
      && ns[1].Element? && ns[1].tag == "div" && ns[1].cls == "references"
      && |ns[1].children| == |refs|
      && forall i :: 0 <= i < |refs| ==> ns[1].children[i] == Leaf("p", "", PreparedReferences(refs)[i])
  {
    if |refs| > 0 then
      var prepared := PreparedReferences(refs);
      [Leaf("h3", "h2", ReferencesTitle(lang)),
       Element("div", "references", seq(|prepared|, i requires 0 <= i < |prepared| => Leaf("p", "", prepared[i])))]
    else []
  }

  /** A chapter's list may be absent altogether; absent and empty render
      alike. */
  function OptionalReferenceBlock(lang: string, refs: Option<seq<string>>): (ns: seq<Node>)
    ensures ns != [] <==> refs.Some? && refs.value != []
  {
    match refs
    case None => []
    case Some(r) => ReferenceBlock(lang, r)
  }

  /** One written section: its title, then its text. */
  function SectionDiv(sec: SectionContent): Node {
    Element("div", "section-content", [Leaf("h3", "h2", sec.titulo), Leaf("div", "content", sec.texto)])
  }

  /** `chapter.contenido?.map(…).join('')` inside the template: the sections
      in order, or the word `undefined` when there are none at all. */
  function ChapterBody(contenido: Option<seq<SectionContent>>): (ns: seq<Node>)
    ensures contenido.None? ==> ns == [Text("undefined")]
    ensures contenido.Some? ==>
      && |ns| == |contenido.value|
      && forall i :: 0 <= i < |ns| ==> ns[i] == SectionDiv(contenido.value[i])
  {
    match contenido
    case None => [Text("undefined")]
    case Some(secs) => seq(|secs|, i requires 0 <= i < |secs| => SectionDiv(secs[i]))
  }

  /** The `<section>` of the chapter at 1-based position `k`. */
  function ChapterNode(lang: string, k: nat, ch: Chapter): Node {
    Element("section", "",
      [Leaf("h2", "h1", ChapterHeading(lang, k, ch.titulo))]
      + ChapterBody(ch.contenido)
      + OptionalReferenceBlock(lang, ch.referencias))
  }

  /** The `<section>` of the introduction or the conclusion. */
  function PartNode(lang: string, part: SectionContent): Node {
    Element("section", "",
      [Leaf("h2", "h1", part.titulo), Leaf("div", "content", part.texto)]
      + ReferenceBlock(lang, part.referencias))
  }

  function ChapterNodes(lang: string, caps: seq<Chapter>): (ns: seq<Node>)
    ensures |ns| == |caps|
    ensures forall i :: 0 <= i < |caps| ==> ns[i] == ChapterNode(lang, i + 1, caps[i])
  {
    seq(|caps|, i requires 0 <= i < |caps| => ChapterNode(lang, i + 1, caps[i]))
  }

  /** The `<article>`: title, introduction, chapters, conclusion. */
  function Article(book: GeneratedBook): Node {
    var lang := book.outputLanguage;
    Element("article", "",
      [Leaf("h1", "book-title", book.titulo), PartNode(lang, book.introduccion)]
      + ChapterNodes(lang, book.capitulos)
      + [PartNode(lang, book.conclusion)])
  }

  /** The `lang` attribute of the page. */
  function LangAttribute(lang: string): (a: string)
    ensures a == "en" <==> IsEnglish(lang)
    ensures a == "es" <==> !IsEnglish(lang)
  {
    if IsEnglish(lang) then "en" else "es"
  }

  /** `generateHtmlContent`: the page around the article, with the
      language attribute and the title in the head. */
  function GenerateHtmlContent(book: GeneratedBook): string {
    "<!DOCTYPE html><html lang=\"" + LangAttribute(book.outputLanguage) + "\"><head><title>"
      + book.titulo
      + "</title></head><body>"
      + Render(Article(book))
      + "</body></html>"
  }

  /** The article's children are the title, the introduction, the
      chapters in order and numbered from 1, and the conclusion. */
  lemma ArticleLayout(book: GeneratedBook)
    ensures var kids := Article(book).children; var n := |book.capitulos|;
      && |kids| == n + 3
      && kids[0] == Leaf("h1", "book-title", book.titulo)
      && kids[1] == PartNode(book.outputLanguage, book.introduccion)
      && (forall k :: 0 <= k < n ==> kids[k + 2] == ChapterNode(book.outputLanguage, k + 1, book.capitulos[k]))
      && kids[n + 2] == PartNode(book.outputLanguage, book.conclusion)
  {
    var lang := book.outputLanguage;
    Between(Leaf("h1", "book-title", book.titulo), PartNode(lang, book.introduccion),
      ChapterNodes(lang, book.capitulos), PartNode(lang, book.conclusion));
  }

  /** Where the pieces of `[a, b] + mid + [z]` sit. */
  lemma Between(a: Node, b: Node, mid: seq<Node>, z: Node)
    ensures var s := [a, b] + mid + [z];
      && |s| == |mid| + 3 && s[0] == a && s[1] == b && s[|mid| + 2] == z
      && forall k :: 0 <= k < |mid| ==> s[k + 2] == mid[k]
  {
  }

  /** The article appears whole inside the page. */
  lemma PageHasArticle(book: GeneratedBook) returns (pre: string, post: string)
    ensures GenerateHtmlContent(book) == pre + Render(Article(book)) + post
  {
    pre := "<!DOCTYPE html><html lang=\"" + LangAttribute(book.outputLanguage) + "\"><head><title>"
      + book.titulo + "</title></head><body>";
    post := "</body></html>";
  }

  /** The book title is copied into the page's heading exactly as it is:
      no character is escaped. */
  lemma TitleVerbatim(book: GeneratedBook) returns (pre: string, post: string)
    ensures GenerateHtmlContent(book) == pre + book.titulo + post
    ensures EndsWith(pre, OpenTag("h1", "book-title"))
  {
    var p1, q1 := PageHasArticle(book);
    var p2, q2 := RenderHasChild(Article(book), 0);
    Nested(p1, q1, p2, q2, Render(Leaf("h1", "book-title", book.titulo)));
    RenderLeaf("h1", "book-title", book.titulo);
    Nested(p1 + p2, q2 + q1, OpenTag("h1", "book-title"), CloseTag("h1"), book.titulo);
    pre := p1 + p2 + OpenTag("h1", "book-title");
    post := CloseTag("h1") + (q2 + q1);
    assert pre[|pre| - |OpenTag("h1", "book-title")|..] == OpenTag("h1", "book-title");
  }

  /** The text of every written section is copied into the page exactly as
      it is, right after the opening of its `content` division. */
  lemma SectionTextVerbatim(book: GeneratedBook, c: nat, s: nat) returns (pre: string, post: string)
    requires c < |book.capitulos| && book.capitulos[c].contenido.Some?
    requires s < |book.capitulos[c].contenido.value|
    ensures GenerateHtmlContent(book) == pre + book.capitulos[c].contenido.value[s].texto + post
    ensures EndsWith(pre, OpenTag("div", "content"))
  {
    var lang := book.outputLanguage;
    var ch := book.capitulos[c];
    var sec := ch.contenido.value[s];
    var chNode := ChapterNode(lang, c + 1, ch);
    var div := SectionDiv(sec);
    var x := Render(Leaf("div", "content", sec.texto));
    var p, q := ChapterInPage(book, c);
    var p3, q3 := SectionInChapter(lang, c + 1, ch, s);
    var p4, q4 := RenderHasChild(div, 1);
    Nested(p3, q3, p4, q4, x);
    Nested(p, q, p3 + p4, q4 + q3, x);
    RenderLeaf("div", "content", sec.texto);
    Nested(p + (p3 + p4), (q4 + q3) + q, OpenTag("div", "content"), CloseTag("div"), sec.texto);
    pre := p + (p3 + p4) + OpenTag("div", "content");
    post := CloseTag("div") + ((q4 + q3) + q);
    assert pre[|pre| - |OpenTag("div", "content")|..] == OpenTag("div", "content");
  }

  /** The markup of each chapter appears whole inside the page. */
  lemma ChapterInPage(book: GeneratedBook, c: nat) returns (pre: string, post: string)
    requires c < |book.capitulos|
    ensures GenerateHtmlContent(book) == pre + Render(ChapterNode(book.outputLanguage, c + 1, book.capitulos[c])) + post
  {
    var x := Render(ChapterNode(book.outputLanguage, c + 1, book.capitulos[c]));
    var p1, q1 := PageHasArticle(book);
    var p2, q2 := ChapterInArticle(book, c);
    Nested(p1, q1, p2, q2, x);
    pre, post := p1 + p2, q2 + q1;
  }

  lemma ChapterInArticle(book: GeneratedBook, c: nat) returns (pre: string, post: string)
    requires c < |book.capitulos|
    ensures Render(Article(book)) == pre + Render(ChapterNode(book.outputLanguage, c + 1, book.capitulos[c])) + post
  {
    ArticleChapter(book, c);
    pre, post := RenderHasChild(Article(book), c + 2);
  }

  lemma ArticleChapter(book: GeneratedBook, c: nat)
    requires c < |book.capitulos|
    ensures c + 2 < |Article(book).children|
    ensures Article(book).children[c + 2] == ChapterNode(book.outputLanguage, c + 1, book.capitulos[c])
  {
    ArticleLayout(book);
  }

  /** The markup of each written section appears whole inside its chapter. */
  lemma SectionInChapter(lang: string, k: nat, ch: Chapter, s: nat) returns (pre: string, post: string)
    requires ch.contenido.Some? && s < |ch.contenido.value|
    ensures Render(ChapterNode(lang, k, ch)) == pre + Render(SectionDiv(ch.contenido.value[s])) + post
  {
    var n := ChapterNode(lang, k, ch);
    assert n.children[s + 1] == ChapterBody(ch.contenido)[s];
    pre, post := RenderHasChild(n, s + 1);
  }

  /** A chapter with no sections at all shows the word `undefined` right
      after its heading. */
  lemma MissingContentShowsUndefined(lang: string, k: nat, ch: Chapter) returns (pre: string, post: string)
    requires ch.contenido.None?
    ensures Render(ChapterNode(lang, k, ch)) == pre + "undefined" + post
    ensures pre == OpenTag("section", "") + Render(Leaf("h2", "h1", ChapterHeading(lang, k, ch.titulo)))
  {
    var hd := Leaf("h2", "h1", ChapterHeading(lang, k, ch.titulo));
    var refs := OptionalReferenceBlock(lang, ch.referencias);
    assert ChapterNode(lang, k, ch) == Element("section", "", [hd, Text("undefined")] + refs);
    pre, post := UndefinedInSection(hd, refs);
  }

  lemma UndefinedInSection(hd: Node, rest: seq<Node>) returns (pre: string, post: string)
    ensures Render(Element("section", "", [hd, Text("undefined")] + rest)) == pre + "undefined" + post
    ensures pre == OpenTag("section", "") + Render(hd)
  {
    var kids := [hd, Text("undefined")] + rest;
    assert kids[1..][1..] == rest;
    assert RenderAll(kids[1..]) == "undefined" + RenderAll(rest);
    assert RenderAll(kids) == Render(hd) + ("undefined" + RenderAll(rest));
    Nested(OpenTag("section", ""), CloseTag("section"), Render(hd), RenderAll(rest), "undefined");
    pre := OpenTag("section", "") + Render(hd);
    post := RenderAll(rest) + CloseTag("section");
  }

  /** `exportToHtml`: the page and the download name. */
  function ExportToHtml(book: GeneratedBook): (r: (string, string))
    ensures r.0 == GenerateHtmlContent(book)
    ensures EndsWith(r.1, ".html") && r.1[..|r.1| - 5] == Slug(book.titulo)
  {
    (GenerateHtmlContent(book), FileName(book.titulo, ".html"))
  }
}
