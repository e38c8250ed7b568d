/**
 * TemplateManager (templates.js): the fixed catalogue of starter templates
 * and code snippets, looked up by id and filtered by category.
 */
module Templates {
  import opened Wrappers
  import opened Json
  import Project

  datatype Buffers = Buffers(html: string, css: string, js: string)
  datatype Template = Template(id: string, name: string, files: Buffers)
  datatype Snippet = Snippet(id: string, category: string, name: string, code: string, description: string, kind: string)

  const SimpleHtmlPage :=
    "<!DOCTYPE html>\n" + "<html>\n" + "<head>\n" + "  <title>Simple HTML</title>\n" + "</head>\n"
    + "<body>\n" + "  <h1>Hello World!</h1>\n" + "</body>\n" + "</html>"

  const ResponsivePage :=
    "<!DOCTYPE html>\n" + "<html>\n" + "<head>\n"
    + "  <meta name=\"viewport\" content=\"width=device-width, initial-scale=1.0\">\n"
    + "  <title>Responsive</title>\n" + "</head>\n" + "<body>\n" + "  <div class=\"container\">\n"
    + "    <h2>Responsive Layout</h2>\n" + "    <p>This is a responsive starter template.</p>\n"
    + "  </div>\n" + "</body>\n" + "</html>"

  const ResponsiveCss :=
    ".container { max-width: 600px; margin: 2rem auto; padding: 2rem; background: #fff; "
    + "border-radius: 12px; box-shadow: 0 2px 8px rgba(0,0,0,0.08); }"

  /** `this.templates`. */
  const AllTemplates: seq<Template> := [
    Template("blank", "Blank Project", Buffers("", "", "")),
    Template("simple-html", "Simple HTML", Buffers(
      SimpleHtmlPage,
      "body { font-family: sans-serif; background: #f9f9f9; }",
      "console.log(\"Hello World!\");")),
    Template("responsive-page", "Responsive Page", Buffers(ResponsivePage, ResponsiveCss, ""))
  ]

  /** `this.snippets`. */
  const AllSnippets: seq<Snippet> := [
    Snippet("console-log", "js", "Console Log", "console.log(\"Hello World!\");", "Print ke console", "js"),
    Snippet("html-button", "html", "HTML Button", "<button class=\"btn\">Click Me</button>", "Tombol HTML sederhana", "html"),
    Snippet("css-center", "css", "CSS Center",
      ".center { display: flex; justify-content: center; align-items: center; }", "Flexbox center", "css")
  ]

  /**
   * `list.find(x => x.id === id)` for either catalogue, with `idOf` reading
   * the id: the index of the first element with that id.
   */
  function Find<T>(list: seq<T>, idOf: T -> string, id: string): (r: Option<nat>)
    ensures r.Some? ==> r.value < |list| && idOf(list[r.value]) == id
    ensures r.Some? ==> forall j | 0 <= j < r.value :: idOf(list[j]) != id
    ensures r.None? <==> forall j | 0 <= j < |list| :: idOf(list[j]) != id
    decreases |list|
  {
    if list == [] then None
    else if idOf(list[0]) == id then Some(0)
    else match Find(list[1..], idOf, id)
      case None => None
      case Some(i) => Some(i + 1)
  }

  /** getTemplate: `None` is the `undefined` of an unknown id. */
  function GetTemplate(id: string): (r: Option<Template>)
    ensures r.Some? ==> r.value in AllTemplates && r.value.id == id
    ensures r.None? <==> forall t | t in AllTemplates :: t.id != id
  {
    match Find(AllTemplates, (t: Template) => t.id, id)
    case None => None
    case Some(i) => Some(AllTemplates[i])
  }

  /** getSnippet: `None` is the `undefined` of an unknown id. */
  function GetSnippet(id: string): (r: Option<Snippet>)
    ensures r.Some? ==> r.value in AllSnippets && r.value.id == id
    ensures r.None? <==> forall s | s in AllSnippets :: s.id != id
  {
    match Find(AllSnippets, (s: Snippet) => s.id, id)
    case None => None
    case Some(i) => Some(AllSnippets[i])
  }

  /** With distinct ids, `find` by an element's own id gives that element's index. */
  lemma FindOwnId<T>(list: seq<T>, idOf: T -> string, i: nat)
    requires i < |list|
    requires forall a, b | 0 <= a < b < |list| :: idOf(list[a]) != idOf(list[b])
    ensures Find(list, idOf, idOf(list[i])) == Some(i)
  {
  }

  /** getAllTemplates. */
  function GetAllTemplates(): seq<Template> {
    AllTemplates
  }

  /** getAllSnippets. */
  function GetAllSnippets(): seq<Snippet> {
    AllSnippets
  }

  /** Every template getAllTemplates lists is what getTemplate gives for its id. */
  lemma ListedTemplatesFound()
    ensures forall t | t in GetAllTemplates() :: GetTemplate(t.id) == Some(t)
  {
    IdsDistinct();
    forall i | 0 <= i < |AllTemplates| ensures GetTemplate(AllTemplates[i].id) == Some(AllTemplates[i]) {
      FindOwnId(AllTemplates, (t: Template) => t.id, i);
    }
  }

  /** Every snippet getAllSnippets lists is what getSnippet gives for its id. */
  lemma ListedSnippetsFound()
    ensures forall s | s in GetAllSnippets() :: GetSnippet(s.id) == Some(s)
  {
    IdsDistinct();
    forall i | 0 <= i < |AllSnippets| ensures GetSnippet(AllSnippets[i].id) == Some(AllSnippets[i]) {
      FindOwnId(AllSnippets, (s: Snippet) => s.id, i);
    }
  }

  /** `list.filter(s => s.category === category)`. */
  function InCategory(list: seq<Snippet>, category: string): (r: seq<Snippet>)
    ensures |r| <= |list|
    ensures forall s | s in r :: s in list && s.category == category
    ensures forall s | s in list && s.category == category :: s in r
    decreases |list|
  {
    if list == [] then []
    else (if list[0].category == category then [list[0]] else []) + InCategory(list[1..], category)
  }

  /** The filter keeps order: filtering a concatenation concatenates the filtered parts. */
  lemma {:induction false} InCategoryAppend(a: seq<Snippet>, b: seq<Snippet>, category: string)
    ensures InCategory(a + b, category) == InCategory(a, category) + InCategory(b, category)
    decreases |a|
  {
    if a != [] {
      assert (a + b)[1..] == a[1..] + b;
      InCategoryAppend(a[1..], b, category);
    } else {
      assert a + b == b;
    }
  }

  /** getSnippetsByCategory: `'all'` gives the whole list, any other category the matching snippets in order. */
  function GetSnippetsByCategory(category: string): (r: seq<Snippet>)
    ensures category == "all" ==> r == AllSnippets
    ensures category != "all" ==> forall s :: s in r <==> s in AllSnippets && s.category == category
  {
    if category == "all" then AllSnippets else InCategory(AllSnippets, category)
  }

  /** Each snippet category holds exactly one snippet; an unknown category holds none. */
  lemma CategoriesOfTheCatalogue()
    ensures GetSnippetsByCategory("js") == [AllSnippets[0]]
    ensures GetSnippetsByCategory("html") == [AllSnippets[1]]
    ensures GetSnippetsByCategory("css") == [AllSnippets[2]]
    ensures GetSnippetsByCategory("python") == []
  {
  }

  /** Template ids are distinct, and so are snippet ids. */
  lemma IdsDistinct()
    ensures forall i, j | 0 <= i < j < |AllTemplates| :: AllTemplates[i].id != AllTemplates[j].id
    ensures forall i, j | 0 <= i < j < |AllSnippets| :: AllSnippets[i].id != AllSnippets[j].id
  {
    assert |AllTemplates[0].id| == 5 && |AllTemplates[1].id| == 11 && |AllTemplates[2].id| == 15;
    assert AllSnippets[0].id[0] == 'c' && AllSnippets[1].id[0] == 'h' && |AllSnippets[2].id| == 10;
  }

  /** A template's `files` as a JavaScript object: exactly `html`, `css` and `js`, in that order. */
  function FilesOf(t: Template): (files: Value)
    ensures WellFormed(files) && files.keys == ["html", "css", "js"]
  {
    Project.FilesObject(t.files.html, t.files.css, t.files.js)
  }

  /** The project a template starts: its id, name and files. */
  function ProjectOf(t: Template): (p: Value)
    ensures p.Obj? && Project.Files(p) == FilesOf(t)
  {
    Obj(["id", "name", "files"], map["id" := Str(t.id), "name" := Str(t.name), "files" := FilesOf(t)])
  }

  /**
   * The blank template's buffers are empty, and so is the responsive
   * page's script: a project started from either is rejected by
   * validateProjectData, while the simple page passes.
   */
  lemma TemplateValidity()
    ensures !Project.ValidateProjectData(ProjectOf(AllTemplates[0]))
    ensures Project.ValidateProjectData(ProjectOf(AllTemplates[1]))
    ensures !Project.ValidateProjectData(ProjectOf(AllTemplates[2]))
  {
    assert |SimpleHtmlPage| > 0;
  }
}
