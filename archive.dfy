/** The archives `ComponentDownloader` builds (download-system.js:121-198):
    a JSZip object that the builders fill step by step with folder and file
    writes. An archive's contents are a map from path to file plus the set of
    folder entries; a write to a path already present replaces the file. A
    file is recorded as the document that produced its text (`Render` gives
    the text), so that the layout can be reasoned about without expanding
    the templates. */
module Archive {
  import opened Wrappers
  import opened Text
  import opened Catalog
  import opened Documents

  /** The text of a file, by the call that produced it. */
  datatype Doc =
    | Text(text: string)           // a stylesheet or an asset passed through
    | ThemeSheet                   // getThemeCSS()
    | ComponentsSheet              // getComponentsCSS()
    | Page(page: Component)        // generateStandaloneHTML(component)
    | ReadmeOf(readme: Component)  // generateReadme(component)
    | Guide(name: string)          // generateUsageGuide(component)

  function Render(d: Doc): string
  {
    match d
    case Text(s) => s
    case ThemeSheet => ThemeCSS
    case ComponentsSheet => ComponentsCSS
    case Page(c) => StandaloneHTML(c)
    case ReadmeOf(c) => Readme(c)
    case Guide(name) => UsageGuide(name)
  }

  datatype Contents = Contents(files: map<string, Doc>, folders: set<string>)

  const Empty: Contents := Contents(map[], {})

  /** One call on the zip object: `file(path, text)` or `folder(name)`, with
      the path already resolved against the folder it was called on. */
  datatype Op = WriteFile(path: string, content: Doc) | AddFolder(path: string)

  function Step(a: Contents, op: Op): Contents
  {
    match op
    case WriteFile(p, v) => a.(files := a.files[p := v])
    case AddFolder(p) => a.(folders := a.folders + {p})
  }

  /** The contents after a sequence of calls. */
  function Apply(a: Contents, ops: seq<Op>): Contents
  {
    if |ops| == 0 then a else Step(Apply(a, ops[..|ops| - 1]), ops[|ops| - 1])
  }

  /** The JSZip object: the builders only ever add folders and write files. */
  class Zip {
    var files: map<string, Doc>
    var folders: set<string>

    function State(): Contents
      reads this
    {
      Contents(files, folders)
    }

    constructor()
      ensures State() == Empty
    {
      files := map[];
      folders := {};
    }

    /** `file(path, content)`: a later write to the same path wins. */
    method File(path: string, content: Doc)
      modifies this
      ensures State() == Step(old(State()), WriteFile(path, content))
    {
      files := files[path := content];
    }

    /** `folder(name)`: records the folder entry and hands back the prefix
        under which the returned sub-object writes. */
    method Folder(path: string) returns (prefix: string)
      modifies this
      ensures prefix == path + "/"
      ensures State() == Step(old(State()), AddFolder(prefix))
    {
      prefix := path + "/";
      folders := folders + {prefix};
    }
  }

  // ---------------------------------------------------------------------
  // What a sequence of calls leaves behind
  // ---------------------------------------------------------------------

  /** Appending one call is one more step. */
  lemma ApplySnoc(a: Contents, ops: seq<Op>, op: Op)
    ensures Apply(a, ops + [op]) == Step(Apply(a, ops), op)
  {
    assert (ops + [op])[..|ops|] == ops;
  }

  /** A path is a file of the result iff it was one before or some call
      wrote it. */
  lemma {:induction false} ApplyFiles(a: Contents, ops: seq<Op>, k: string)
    ensures k in Apply(a, ops).files <==> k in a.files || exists v :: WriteFile(k, v) in ops
  {
    if |ops| > 0 {
      var init, last := ops[..|ops| - 1], ops[|ops| - 1];
      assert ops == init + [last];
      ApplyFiles(a, init, k);
      if last.WriteFile? && last.path == k {
        assert WriteFile(k, last.content) in ops;
      }
      if exists v :: WriteFile(k, v) in ops {
        var v :| WriteFile(k, v) in ops;
        if WriteFile(k, v) != last {
          assert WriteFile(k, v) in init;
        }
      }
    }
  }

  /** A folder entry exists iff it did before or some call added it. */
  lemma {:induction false} ApplyFolders(a: Contents, ops: seq<Op>, p: string)
    ensures p in Apply(a, ops).folders <==> p in a.folders || AddFolder(p) in ops
  {
    if |ops| > 0 {
      var init, last := ops[..|ops| - 1], ops[|ops| - 1];
      assert ops == init + [last];
      ApplyFolders(a, init, p);
    }
  }

  /** When every write to a path carries the same text, that is its text. */
  lemma {:induction false} ApplyValue(a: Contents, ops: seq<Op>, k: string, v: Doc)
    requires WriteFile(k, v) in ops
    requires forall w :: WriteFile(k, w) in ops ==> w == v
    ensures k in Apply(a, ops).files && Apply(a, ops).files[k] == v
  {
    var init, last := ops[..|ops| - 1], ops[|ops| - 1];
    assert ops == init + [last];
    if !(last.WriteFile? && last.path == k) {
      assert WriteFile(k, v) in init;
      ApplyValue(a, init, k, v);
    }
  }

  // ---------------------------------------------------------------------
  // downloadComponent (download-system.js:121-158)
  // ---------------------------------------------------------------------

  /** A finished download: the archive, the name the browser saves it under
      and the component name the notification shows. */
  datatype Download = Download(archive: Contents, fileName: string, notice: string)

  /** The calls of the single-component archive, all under `<name>/`. */
  function SingleOps(id: string, c: Component): seq<Op>
  {
    var dir := c.name + "/";
    [ AddFolder(dir),
      WriteFile(dir + (id + ".html"), Page(c)),
      WriteFile(dir + (id + ".css"), Text(c.css)),
      WriteFile(dir + "README.md", ReadmeOf(c)),
      WriteFile(dir + "usage-guide.md", Guide(c.name)),
      WriteFile(dir + "linear-theme.css", ThemeSheet),
      WriteFile(dir + "linear-components.css", ComponentsSheet) ]
  }

  function SingleArchive(id: string, c: Component): Contents
  {
    Apply(Empty, SingleOps(id, c))
  }

  function SingleArchiveName(id: string): string
  {
    "occler-" + id + "-component.zip"
  }

  /** An unknown id logs `Component <id> not found` and builds nothing;
      a known one yields its archive, saved as `occler-<id>-component.zip`,
      and a notification naming the component. */
  method DownloadComponent(catalog: Catalog, id: string) returns (r: Result<Download, string>)
    ensures Lookup(catalog, id).None? <==> r.Failure?
    ensures r.Failure? ==> r.error == "Component " + id + " not found"
    ensures r.Success? ==> r.value == Download(SingleArchive(id, Lookup(catalog, id).value),
      SingleArchiveName(id), Lookup(catalog, id).value.name)
  {
    var found := Lookup(catalog, id);
    if found.None? {
      return Failure("Component " + id + " not found");
    }
    var c := found.value;
    var zip := new Zip();
    ghost var done: seq<Op> := [];
    var dir := zip.Folder(c.name);
    done := done + [AddFolder(dir)];
    ApplySnoc(Empty, [], AddFolder(dir));
    zip.File(dir + (id + ".html"), Page(c));
    ApplySnoc(Empty, done, WriteFile(dir + (id + ".html"), Page(c)));
    done := done + [WriteFile(dir + (id + ".html"), Page(c))];
    zip.File(dir + (id + ".css"), Text(c.css));
    ApplySnoc(Empty, done, WriteFile(dir + (id + ".css"), Text(c.css)));
    done := done + [WriteFile(dir + (id + ".css"), Text(c.css))];
    zip.File(dir + "README.md", ReadmeOf(c));
    ApplySnoc(Empty, done, WriteFile(dir + "README.md", ReadmeOf(c)));
    done := done + [WriteFile(dir + "README.md", ReadmeOf(c))];
    zip.File(dir + "usage-guide.md", Guide(c.name));
    ApplySnoc(Empty, done, WriteFile(dir + "usage-guide.md", Guide(c.name)));
    done := done + [WriteFile(dir + "usage-guide.md", Guide(c.name))];
    zip.File(dir + "linear-theme.css", ThemeSheet);
    ApplySnoc(Empty, done, WriteFile(dir + "linear-theme.css", ThemeSheet));
    done := done + [WriteFile(dir + "linear-theme.css", ThemeSheet)];
    zip.File(dir + "linear-components.css", ComponentsSheet);
    ApplySnoc(Empty, done, WriteFile(dir + "linear-components.css", ComponentsSheet));
    done := done + [WriteFile(dir + "linear-components.css", ComponentsSheet)];
    assert done == SingleOps(id, c);
    r := Success(Download(zip.State(), SingleArchiveName(id), c.name));
  }

  /** The six paths of a single-component archive. */
  function SinglePaths(id: string, name: string): set<string>
  {
    var dir := name + "/";
    {dir + (id + ".html"), dir + (id + ".css"), dir + "README.md", dir + "usage-guide.md",
     dir + "linear-theme.css", dir + "linear-components.css"}
  }

  /** The single archive holds exactly the six paths, all under the
      component's folder, and that folder is its only folder entry. */
  lemma SingleArchiveLayout(id: string, c: Component)
    ensures SingleArchive(id, c).files.Keys == SinglePaths(id, c.name)
    ensures SingleArchive(id, c).folders == {c.name + "/"}
  {
    var ops := SingleOps(id, c);
    forall k
      ensures k in SingleArchive(id, c).files <==> k in SinglePaths(id, c.name)
    {
      ApplyFiles(Empty, ops, k);
      if k in SinglePaths(id, c.name) {
        var i :| 1 <= i < 7 && ops[i].path == k;
        assert WriteFile(k, ops[i].content) in ops;
      }
    }
    forall p
      ensures p in SingleArchive(id, c).folders <==> p == c.name + "/"
    {
      ApplyFolders(Empty, ops, p);
    }
  }

  /** What follows the folder in each of the six paths. */
  function SingleSuffixes(id: string): seq<string>
  {
    [id + ".html", id + ".css", "README.md", "usage-guide.md", "linear-theme.css", "linear-components.css"]
  }

  /** With an ordinary id the six suffixes differ: the last characters and
      the lengths tell them apart, except the component's stylesheet from
      the shared ones, which differ by the id. */
  lemma SingleSuffixesDistinct(id: string)
    requires id != "linear-theme" && id != "linear-components"
    ensures forall i, j :: 0 <= i < j < 6 ==> SingleSuffixes(id)[i] != SingleSuffixes(id)[j]
  {
    var s := SingleSuffixes(id);
    assert s[0][|s[0]| - 1] == 'l' && s[1][|s[1]| - 1] == 's';
    assert s[2][|s[2]| - 1] == 'd' && s[3][|s[3]| - 1] == 'd';
    assert s[4][|s[4]| - 1] == 's' && s[5][|s[5]| - 1] == 's';
    assert |s[2]| == 9 && |s[3]| == 14 && |s[4]| == 16 && |s[5]| == 21;
    DropSuffix(id, "linear-theme", ".css");
    DropSuffix(id, "linear-components", ".css");
  }

  /** A common prefix keeps different strings different. */
  lemma PrefixedDistinct(dir: string, s: seq<string>)
    requires forall i, j :: 0 <= i < j < |s| ==> s[i] != s[j]
    ensures forall i, j :: 0 <= i < j < |s| ==> dir + s[i] != dir + s[j]
  {
    forall i, j | 0 <= i < j < |s|
      ensures dir + s[i] != dir + s[j]
    {
      SameTail(dir, s[i], s[j]);
    }
  }

  /** With an ordinary id the archive holds six files. */
  lemma SingleArchiveSize(id: string, c: Component)
    requires id != "linear-theme" && id != "linear-components"
    ensures |SingleArchive(id, c).files| == 6
  {
    SingleArchiveLayout(id, c);
    var dir, s := c.name + "/", SingleSuffixes(id);
    SingleSuffixesDistinct(id);
    PrefixedDistinct(dir, s);
    assert SinglePaths(id, c.name) == {dir + s[0], dir + s[1], dir + s[2], dir + s[3], dir + s[4], dir + s[5]};
    assert dir + s[0] != dir + s[1] && dir + s[0] != dir + s[2] && dir + s[0] != dir + s[3];
    assert dir + s[0] != dir + s[4] && dir + s[0] != dir + s[5];
    assert dir + s[1] != dir + s[2] && dir + s[1] != dir + s[3] && dir + s[1] != dir + s[4];
    assert dir + s[1] != dir + s[5];
    assert dir + s[2] != dir + s[3] && dir + s[2] != dir + s[4] && dir + s[2] != dir + s[5];
    assert dir + s[3] != dir + s[4] && dir + s[3] != dir + s[5] && dir + s[4] != dir + s[5];
  }

  /** A common prefix can be dropped from an equation. */
  lemma SameTail(p: string, x: string, y: string)
    ensures p + x == p + y <==> x == y
  {
    if p + x == p + y {
      assert (p + x)[|p|..] == x && (p + y)[|p|..] == y;
    }
  }

  /** A common suffix can be dropped from an equation. */
  lemma DropSuffix(x: string, y: string, s: string)
    ensures x + s == y + s <==> x == y
  {
    if x + s == y + s {
      assert |x| == |y|;
      assert (x + s)[..|x|] == x && (y + s)[..|y|] == y;
    }
  }

  /** With an ordinary id the archive holds the component's page, stylesheet,
      README and usage guide next to the two shared stylesheets. */
  lemma SingleArchiveContents(id: string, c: Component)
    requires id != "linear-theme" && id != "linear-components"
    ensures var files, dir := SingleArchive(id, c).files, c.name + "/";
      SinglePaths(id, c.name) <= files.Keys &&
      files[dir + (id + ".html")] == Page(c) &&
      files[dir + (id + ".css")] == Text(c.css) &&
      files[dir + "README.md"] == ReadmeOf(c) &&
      files[dir + "usage-guide.md"] == Guide(c.name) &&
      files[dir + "linear-theme.css"] == ThemeSheet &&
      files[dir + "linear-components.css"] == ComponentsSheet
  {
    SingleArchiveLayout(id, c);
    SingleFile(id, c, 0);
    SingleFile(id, c, 1);
    SingleFile(id, c, 2);
    SingleFile(id, c, 3);
    SingleFile(id, c, 4);
    SingleFile(id, c, 5);
  }

  /** The file at the `k`-th of the six paths is the one written there. */
  lemma SingleFile(id: string, c: Component, k: nat)
    requires id != "linear-theme" && id != "linear-components"
    requires k < 6
    ensures var files, path := SingleArchive(id, c).files, c.name + "/" + SingleSuffixes(id)[k];
      path in files && files[path] == SingleOps(id, c)[k + 1].content
  {
    var ops := SingleOps(id, c);
    var dir, s := c.name + "/", SingleSuffixes(id);
    SingleSuffixesDistinct(id);
    PrefixedDistinct(dir, s);
    var path := dir + s[k];
    assert ops[k + 1] == WriteFile(path, ops[k + 1].content);
    forall w | WriteFile(path, w) in ops
      ensures w == ops[k + 1].content
    {
      var j :| 0 <= j < 7 && ops[j] == WriteFile(path, w);
      assert dir + s[j - 1] == path;
    }
    ApplyValue(Empty, ops, path, ops[k + 1].content);
  }

  /** An id equal to a shared stylesheet's name makes the component's
      stylesheet path coincide with it, and the shared stylesheet, written
      later, replaces the component's. */
  lemma SingleStylesheetShadowed(id: string, c: Component)
    requires id == "linear-theme" || id == "linear-components"
    ensures var files, dir := SingleArchive(id, c).files, c.name + "/";
      dir + (id + ".css") in files &&
      files[dir + (id + ".css")] == if id == "linear-theme" then ThemeSheet else ComponentsSheet
  {
    var ops := SingleOps(id, c);
    var dir := c.name + "/";
    ApplySnoc(Empty, ops[..6], ops[6]);
    ApplySnoc(Empty, ops[..5], ops[5]);
    assert ops[..5] + [ops[5]] == ops[..6];
    assert ops[..6] + [ops[6]] == ops;
    assert id + ".css" == if id == "linear-theme" then "linear-theme.css" else "linear-components.css";
    SameTail(dir, "linear-theme.css", "linear-components.css");
  }

  // ---------------------------------------------------------------------
  // downloadAllComponents (download-system.js:161-198)
  // ---------------------------------------------------------------------

  /** The texts of the complete archive that are fixed documents of the
      system: `generateMainReadme()`, `getDesignTokensCSS()` and
      `generateUsageExamples()`. */
  datatype Assets = Assets(mainReadme: string, designTokens: string, usageExamples: string)

  const CompleteArchiveName: string := "occler-linear-design-system-complete.zip"

  /** What the notification shows for the complete archive. */
  const CompleteNotice: string := "전체 디자인 시스템"

  /** The root writes before the category loop. */
  const RootBefore: seq<Op> :=
    [WriteFile("linear-theme.css", ThemeSheet), WriteFile("linear-components.css", ComponentsSheet)]

  /** The root writes after the category loop. */
  function RootAfter(assets: Assets): seq<Op>
  {
    [ WriteFile("README.md", Text(assets.mainReadme)),
      WriteFile("design-tokens.css", Text(assets.designTokens)),
      WriteFile("usage-examples.html", Text(assets.usageExamples)) ]
  }

  /** The five files at the root of the complete archive. */
  const RootNames: set<string> :=
    {"linear-theme.css", "linear-components.css", "README.md", "design-tokens.css", "usage-examples.html"}

  /** The folder of an entry: `<category>/<name>/`. */
  function EntryDir(e: Entry): string
  {
    e.component.category + "/" + e.component.name + "/"
  }

  function EntryPaths(e: Entry): set<string>
  {
    {EntryDir(e) + (e.id + ".html"), EntryDir(e) + (e.id + ".css"), EntryDir(e) + "README.md"}
  }

  /** The calls for one entry inside its category folder. */
  function EntryOps(e: Entry): seq<Op>
  {
    var dir := EntryDir(e);
    [ AddFolder(dir),
      WriteFile(dir + (e.id + ".html"), Page(e.component)),
      WriteFile(dir + (e.id + ".css"), Text(e.component.css)),
      WriteFile(dir + "README.md", ReadmeOf(e.component)) ]
  }

  /** The inner loop over the catalog for one category. */
  function CategoryOps(cat: string, entries: seq<Entry>): seq<Op>
  {
    if |entries| == 0 then []
    else
      var e := entries[|entries| - 1];
      CategoryOps(cat, entries[..|entries| - 1]) + (if e.component.category == cat then EntryOps(e) else [])
  }

  /** The outer loop over the categories. */
  function CategoriesOps(cats: seq<string>, catalog: Catalog): seq<Op>
  {
    if |cats| == 0 then []
    else
      var cat := cats[|cats| - 1];
      CategoriesOps(cats[..|cats| - 1], catalog) + ([AddFolder(cat + "/")] + CategoryOps(cat, catalog))
  }

  function CompleteOps(catalog: Catalog, assets: Assets): seq<Op>
  {
    RootBefore + CategoriesOps(Categories, catalog) + RootAfter(assets)
  }

  function CompleteArchive(catalog: Catalog, assets: Assets): Contents
  {
    Apply(Empty, CompleteOps(catalog, assets))
  }

  /** Calls made one after the other. */
  lemma {:induction false} ApplyAppend(a: Contents, x: seq<Op>, y: seq<Op>)
    ensures Apply(a, x + y) == Apply(Apply(a, x), y)
  {
    if |y| > 0 {
      var init, last := y[..|y| - 1], y[|y| - 1];
      assert x + y == (x + init) + [last];
      assert (x + y)[..|x + y| - 1] == x + init;
      ApplyAppend(a, x, init);
    } else {
      assert x + y == x;
    }
  }

  /** Builds the complete archive: the shared stylesheets, then for each of
      the four categories its folder and the folders of its entries, then
      the main README, the design tokens and the usage examples. The file
      name and the notice do not depend on the catalog. */
  method DownloadAllComponents(catalog: Catalog, assets: Assets) returns (d: Download)
    ensures d.archive == CompleteArchive(catalog, assets)
    ensures d.fileName == CompleteArchiveName && d.notice == CompleteNotice
  {
    var zip := new Zip();
    var before, after := RootBefore, RootAfter(assets);
    zip.File("linear-theme.css", ThemeSheet);
    ApplySnoc(Empty, [], before[0]);
    zip.File("linear-components.css", ComponentsSheet);
    ApplySnoc(Empty, [before[0]], before[1]);
    assert [before[0]] + [before[1]] == before;
    var categories := ["buttons", "inputs", "cards", "navigation"];
    for ci := 0 to |categories|
      invariant categories == Categories
      invariant zip.State() == Apply(Empty, before + CategoriesOps(categories[..ci], catalog))
    {
      var cat := categories[ci];
      ghost var done := before + CategoriesOps(categories[..ci], catalog);
      CategoryWrites(zip, cat, catalog);
      ApplyAppend(Empty, done, [AddFolder(cat + "/")] + CategoryOps(cat, catalog));
      CategoriesOpsSnoc(before, categories, catalog, ci);
    }
    assert categories[..4] == categories;
    ghost var done := before + CategoriesOps(Categories, catalog);
    zip.File("README.md", Text(assets.mainReadme));
    ApplySnoc(Empty, done, after[0]);
    zip.File("design-tokens.css", Text(assets.designTokens));
    ApplySnoc(Empty, done + [after[0]], after[1]);
    zip.File("usage-examples.html", Text(assets.usageExamples));
    ApplySnoc(Empty, done + [after[0]] + [after[1]], after[2]);
    assert done + [after[0]] + [after[1]] + [after[2]] == CompleteOps(catalog, assets);
    d := Download(zip.State(), CompleteArchiveName, CompleteNotice);
  }

  /** One more turn of the outer loop appends one category's calls. */
  lemma CategoriesOpsSnoc(before: seq<Op>, cats: seq<string>, catalog: Catalog, n: nat)
    requires n < |cats|
    ensures before + CategoriesOps(cats[..n + 1], catalog)
      == (before + CategoriesOps(cats[..n], catalog)) + ([AddFolder(cats[n] + "/")] + CategoryOps(cats[n], catalog))
  {
    assert cats[..n + 1][..n] == cats[..n];
  }

  /** The body of the outer loop for one category: its folder, then the
      inner loop over the catalog. */
  method CategoryWrites(zip: Zip, cat: string, catalog: Catalog)
    modifies zip
    ensures zip.State() == Apply(old(zip.State()), [AddFolder(cat + "/")] + CategoryOps(cat, catalog))
  {
    var catDir := zip.Folder(cat);
    ApplySnoc(old(zip.State()), [], AddFolder(catDir));
    for k := 0 to |catalog|
      invariant zip.State() == Apply(old(zip.State()), [AddFolder(catDir)] + CategoryOps(cat, catalog[..k]))
    {
      var e := catalog[k];
      ghost var done := [AddFolder(catDir)] + CategoryOps(cat, catalog[..k]);
      assert catalog[..k + 1][..k] == catalog[..k];
      if e.component.category == cat {
        EntryWrites(zip, catDir, e);
        ApplyAppend(old(zip.State()), done, EntryOps(e));
        assert done + EntryOps(e) == [AddFolder(catDir)] + CategoryOps(cat, catalog[..k + 1]);
      } else {
        assert done == [AddFolder(catDir)] + CategoryOps(cat, catalog[..k + 1]);
      }
    }
    assert catalog[..|catalog|] == catalog;
  }

  /** The body of the inner loop for an entry of the current category: its
      folder inside the category folder and its three files. */
  method EntryWrites(zip: Zip, catDir: string, e: Entry)
    requires catDir == e.component.category + "/"
    modifies zip
    ensures zip.State() == Apply(old(zip.State()), EntryOps(e))
  {
    ghost var ops := EntryOps(e);
    ghost var start := zip.State();
    var dir := zip.Folder(catDir + e.component.name);
    ApplySnoc(start, [], ops[0]);
    zip.File(dir + (e.id + ".html"), Page(e.component));
    ApplySnoc(start, ops[..1], ops[1]);
    zip.File(dir + (e.id + ".css"), Text(e.component.css));
    ApplySnoc(start, ops[..2], ops[2]);
    zip.File(dir + "README.md", ReadmeOf(e.component));
    ApplySnoc(start, ops[..3], ops[3]);
    assert [ops[0]] == ops[..1];
    assert ops[..1] + [ops[1]] == ops[..2];
    assert ops[..2] + [ops[2]] == ops[..3];
    assert ops[..3] + [ops[3]] == ops;
  }

  // ---------------------------------------------------------------------
  // Which calls the complete archive makes
  // ---------------------------------------------------------------------

  /** An entry's call in the inner loop comes from an entry of that
      category. */
  lemma {:induction false} CategoryOpsSource(cat: string, entries: seq<Entry>, op: Op) returns (i: nat)
    requires op in CategoryOps(cat, entries)
    ensures i < |entries| && entries[i].component.category == cat && op in EntryOps(entries[i])
  {
    var init := entries[..|entries| - 1];
    if op in CategoryOps(cat, init) {
      i := CategoryOpsSource(cat, init, op);
    } else {
      i := |entries| - 1;
    }
  }

  /** Every call of an entry of the category is made by the inner loop. */
  lemma {:induction false} CategoryOpsHas(cat: string, entries: seq<Entry>, i: nat, op: Op)
    requires i < |entries| && entries[i].component.category == cat && op in EntryOps(entries[i])
    ensures op in CategoryOps(cat, entries)
  {
    var init := entries[..|entries| - 1];
    if i < |init| {
      assert init[i] == entries[i];
      CategoryOpsHas(cat, init, i, op);
    }
  }

  /** A call of the outer loop is a category folder or a call of an entry
      of one of the categories. */
  lemma {:induction false} CategoriesOpsSource(cats: seq<string>, catalog: Catalog, op: Op) returns (j: nat, i: nat)
    requires op in CategoriesOps(cats, catalog)
    ensures (j < |cats| && op == AddFolder(cats[j] + "/")) ||
      (i < |catalog| && catalog[i].component.category in cats && op in EntryOps(catalog[i]))
  {
    var init, cat := cats[..|cats| - 1], cats[|cats| - 1];
    assert cats == init + [cat];
    if op in CategoriesOps(init, catalog) {
      j, i := CategoriesOpsSource(init, catalog, op);
    } else if op == AddFolder(cat + "/") {
      j, i := |cats| - 1, 0;
    } else {
      j := |cats|;
      i := CategoryOpsSource(cat, catalog, op);
    }
  }

  /** Every category's folder is made by the outer loop. */
  lemma {:induction false} CategoriesOpsHasFolder(cats: seq<string>, catalog: Catalog, j: nat)
    requires j < |cats|
    ensures AddFolder(cats[j] + "/") in CategoriesOps(cats, catalog)
  {
    var init := cats[..|cats| - 1];
    if j < |init| {
      assert init[j] == cats[j];
      CategoriesOpsHasFolder(init, catalog, j);
    }
  }

  /** Every call of an entry of one of the categories is made by the outer
      loop. */
  lemma {:induction false} CategoriesOpsHasEntry(cats: seq<string>, catalog: Catalog, i: nat, op: Op)
    requires i < |catalog| && catalog[i].component.category in cats && op in EntryOps(catalog[i])
    ensures op in CategoriesOps(cats, catalog)
  {
    var init, cat := cats[..|cats| - 1], cats[|cats| - 1];
    assert cats == init + [cat];
    if catalog[i].component.category == cat {
      CategoryOpsHas(cat, catalog, i, op);
    } else {
      CategoriesOpsHasEntry(init, catalog, i, op);
    }
  }

  /** The file an entry's call writes at one of its paths. */
  function EntryDoc(e: Entry, k: string): Doc
  {
    if k == EntryDir(e) + (e.id + ".html") then Page(e.component)
    else if k == EntryDir(e) + (e.id + ".css") then Text(e.component.css)
    else ReadmeOf(e.component)
  }

  /** An entry writes exactly its three paths, each with its own file. */
  lemma EntryOpsWrites(e: Entry, k: string, v: Doc)
    ensures WriteFile(k, v) in EntryOps(e) <==> k in EntryPaths(e) && v == EntryDoc(e, k)
  {
    var dir := EntryDir(e);
    FileKindsDiffer(e.id, e.id);
    SameTail(dir, e.id + ".html", e.id + ".css");
    SameTail(dir, e.id + ".html", "README.md");
    SameTail(dir, e.id + ".css", "README.md");
  }

  /** The last characters of the three kinds of entry file tell them apart. */
  lemma FileKindsDiffer(id1: string, id2: string)
    ensures id1 + ".html" != id2 + ".css" && id1 + ".html" != "README.md" && id1 + ".css" != "README.md"
  {
    var h, s, c := id1 + ".html", id2 + ".css", id1 + ".css";
    assert h[|h| - 1] == 'l' && s[|s| - 1] == 's' && c[|c| - 1] == 's';
  }

  /** The root writes: the five root names, each with its file. */
  lemma RootWrites(assets: Assets, k: string, v: Doc)
    ensures WriteFile(k, v) in RootBefore + RootAfter(assets) ==> k in RootNames
    ensures k in RootNames ==> exists w :: WriteFile(k, w) in RootBefore + RootAfter(assets)
  {
    var ops := RootBefore + RootAfter(assets);
    assert ops[0].path == "linear-theme.css" && ops[1].path == "linear-components.css";
    assert ops[2].path == "README.md" && ops[3].path == "design-tokens.css";
    assert ops[4].path == "usage-examples.html";
    if k in RootNames {
      var n :| 0 <= n < 5 && ops[n].path == k;
      assert WriteFile(k, ops[n].content) in ops;
    }
  }

  // ---------------------------------------------------------------------
  // Layout of the complete archive
  // ---------------------------------------------------------------------

  /** A write of the complete archive is a root write or a write of an
      entry of the four categories. */
  lemma CompleteWriteSource(catalog: Catalog, assets: Assets, k: string, v: Doc) returns (i: nat)
    requires WriteFile(k, v) in CompleteOps(catalog, assets)
    ensures k in RootNames ||
      (i < |catalog| && catalog[i].component.category in Categories && WriteFile(k, v) in EntryOps(catalog[i]))
  {
    var root := RootBefore + RootAfter(assets);
    RootWrites(assets, k, v);
    if WriteFile(k, v) in CategoriesOps(Categories, catalog) {
      var j;
      j, i := CategoriesOpsSource(Categories, catalog, WriteFile(k, v));
    } else {
      assert WriteFile(k, v) in root;
      i := 0;
    }
  }

  /** The files of the complete archive: exactly the five root files and the
      three files of every entry in one of the four categories; entries of
      any other category leave no trace. */
  lemma CompleteFiles(catalog: Catalog, assets: Assets, k: string)
    ensures k in CompleteArchive(catalog, assets).files <==>
      k in RootNames ||
      exists i :: 0 <= i < |catalog| && catalog[i].component.category in Categories && k in EntryPaths(catalog[i])
  {
    var ops := CompleteOps(catalog, assets);
    ApplyFiles(Empty, ops, k);
    if exists v :: WriteFile(k, v) in ops {
      var v :| WriteFile(k, v) in ops;
      var i := CompleteWriteSource(catalog, assets, k, v);
      if k !in RootNames {
        EntryOpsWrites(catalog[i], k, v);
      }
    }
    if k in RootNames {
      RootWrites(assets, k, ThemeSheet);
      var w :| WriteFile(k, w) in RootBefore + RootAfter(assets);
      assert WriteFile(k, w) in ops;
    }
    if exists i :: 0 <= i < |catalog| && catalog[i].component.category in Categories && k in EntryPaths(catalog[i]) {
      var i :| 0 <= i < |catalog| && catalog[i].component.category in Categories && k in EntryPaths(catalog[i]);
      var v := EntryDoc(catalog[i], k);
      EntryOpsWrites(catalog[i], k, v);
      CategoriesOpsHasEntry(Categories, catalog, i, WriteFile(k, v));
    }
  }

  /** The folder entries of the complete archive: the four category folders
      and one folder per entry of those categories. */
  lemma CompleteFolders(catalog: Catalog, assets: Assets, p: string)
    ensures p in CompleteArchive(catalog, assets).folders <==>
      (exists j :: 0 <= j < 4 && p == Categories[j] + "/") ||
      exists i :: 0 <= i < |catalog| && catalog[i].component.category in Categories && p == EntryDir(catalog[i])
  {
    var ops := CompleteOps(catalog, assets);
    ApplyFolders(Empty, ops, p);
    if AddFolder(p) in ops {
      assert AddFolder(p) in CategoriesOps(Categories, catalog);
      var j, i := CategoriesOpsSource(Categories, catalog, AddFolder(p));
      if !(j < 4 && AddFolder(p) == AddFolder(Categories[j] + "/")) {
        assert p == EntryDir(catalog[i]);
      }
    }
    if exists j :: 0 <= j < 4 && p == Categories[j] + "/" {
      var j :| 0 <= j < 4 && p == Categories[j] + "/";
      CategoriesOpsHasFolder(Categories, catalog, j);
    }
    if exists i :: 0 <= i < |catalog| && catalog[i].component.category in Categories && p == EntryDir(catalog[i]) {
      var i :| 0 <= i < |catalog| && catalog[i].component.category in Categories && p == EntryDir(catalog[i]);
      assert AddFolder(p) == EntryOps(catalog[i])[0];
      CategoriesOpsHasEntry(Categories, catalog, i, AddFolder(p));
    }
  }

  /** No category name holds a path separator. */
  lemma CategoriesPlain()
    ensures forall j :: 0 <= j < 4 ==> '/' !in Categories[j]
  {
    assert '/' !in "buttons" && '/' !in "inputs" && '/' !in "cards" && '/' !in "navigation";
  }

  /** No root name holds a path separator. */
  lemma RootNamesPlain()
    ensures forall k :: k in RootNames ==> '/' !in k
  {
    assert '/' !in "linear-theme.css" && '/' !in "linear-components.css" && '/' !in "README.md";
    assert '/' !in "design-tokens.css" && '/' !in "usage-examples.html";
  }

  /** Every path under an entry's folder contains a separator. */
  lemma EntryPathsNested(e: Entry, rest: string)
    ensures '/' in EntryDir(e) + rest
  {
    var cat := e.component.category;
    assert (EntryDir(e) + rest)[|cat|] == '/';
  }

  /** The root of the complete archive holds exactly the five root files. */
  lemma CompleteRoot(catalog: Catalog, assets: Assets)
    ensures forall k :: k in CompleteArchive(catalog, assets).files && '/' !in k <==> k in RootNames
  {
    RootNamesPlain();
    forall k
      ensures k in CompleteArchive(catalog, assets).files && '/' !in k <==> k in RootNames
    {
      CompleteFiles(catalog, assets, k);
      if k !in RootNames && k in CompleteArchive(catalog, assets).files {
        var i :| 0 <= i < |catalog| && catalog[i].component.category in Categories && k in EntryPaths(catalog[i]);
        var e := catalog[i];
        var rest := if k == EntryDir(e) + (e.id + ".html") then e.id + ".html"
          else if k == EntryDir(e) + (e.id + ".css") then e.id + ".css"
          else "README.md";
        EntryPathsNested(e, rest);
      }
    }
  }

  /** What the five root files hold: the two shared stylesheets, and the
      main README, the design tokens and the usage examples, not any
      component's README. */
  lemma CompleteRootContents(catalog: Catalog, assets: Assets)
    ensures var files := CompleteArchive(catalog, assets).files;
      RootNames <= files.Keys &&
      files["linear-theme.css"] == ThemeSheet &&
      files["linear-components.css"] == ComponentsSheet &&
      files["README.md"] == Text(assets.mainReadme) &&
      files["design-tokens.css"] == Text(assets.designTokens) &&
      files["usage-examples.html"] == Text(assets.usageExamples)
  {
    RootFile(catalog, assets, 0);
    RootFile(catalog, assets, 1);
    RootFile(catalog, assets, 2);
    RootFile(catalog, assets, 3);
    RootFile(catalog, assets, 4);
  }

  /** The `n`-th root write is what the complete archive holds at its path:
      no entry writes a root path, and no other root write shares it. */
  lemma RootFile(catalog: Catalog, assets: Assets, n: nat)
    requires n < 5
    ensures var op := (RootBefore + RootAfter(assets))[n];
      op.WriteFile? && op.path in CompleteArchive(catalog, assets).files &&
      CompleteArchive(catalog, assets).files[op.path] == op.content
  {
    var root := RootBefore + RootAfter(assets);
    var ops := CompleteOps(catalog, assets);
    var k, v := root[n].path, root[n].content;
    assert root[n] in root;
    assert WriteFile(k, v) in ops;
    RootNamesPlain();
    RootWrites(assets, k, v);
    forall w | WriteFile(k, w) in ops
      ensures w == v
    {
      if WriteFile(k, w) in CategoriesOps(Categories, catalog) {
        var j, i := CategoriesOpsSource(Categories, catalog, WriteFile(k, w));
        EntryOpsWrites(catalog[i], k, w);
        var e := catalog[i];
        var rest := if k == EntryDir(e) + (e.id + ".html") then e.id + ".html"
          else if k == EntryDir(e) + (e.id + ".css") then e.id + ".css"
          else "README.md";
        EntryPathsNested(e, rest);
        assert false;
      }
      assert WriteFile(k, w) in root;
    }
    ApplyValue(Empty, ops, k, v);
  }

  /** A folder entry directly under the root: one separator, at its end. */
  predicate TopLevel(p: string)
  {
    |p| > 0 && p[|p| - 1] == '/' && '/' !in p[..|p| - 1]
  }

  /** A category folder is top-level; an entry folder is not. */
  lemma TopLevelFolders(cat: string, rest: string)
    requires '/' !in cat
    ensures TopLevel(cat + "/")
    ensures rest != [] ==> !TopLevel(cat + "/" + rest)
  {
    assert (cat + "/")[..|cat|] == cat;
    if rest != [] {
      var p := cat + "/" + rest;
      assert p[..|p| - 1][|cat|] == '/';
    }
  }

  /** The top-level folders of the complete archive are exactly the four
      categories, whatever the catalog holds. */
  lemma CompleteTopFolders(catalog: Catalog, assets: Assets)
    ensures forall p :: p in CompleteArchive(catalog, assets).folders && TopLevel(p) <==>
      p in {"buttons/", "inputs/", "cards/", "navigation/"}
  {
    forall p
      ensures p in CompleteArchive(catalog, assets).folders && TopLevel(p) <==>
        p in {"buttons/", "inputs/", "cards/", "navigation/"}
    {
      TopFolder(catalog, assets, p);
      CategoryFolderName(p);
    }
  }

  /** One folder entry: top-level exactly when it is a category's. */
  lemma TopFolder(catalog: Catalog, assets: Assets, p: string)
    ensures p in CompleteArchive(catalog, assets).folders && TopLevel(p) <==>
      exists j :: 0 <= j < 4 && p == Categories[j] + "/"
  {
    CategoriesPlain();
    CompleteFolders(catalog, assets, p);
    if exists j :: 0 <= j < 4 && p == Categories[j] + "/" {
      var j :| 0 <= j < 4 && p == Categories[j] + "/";
      TopLevelFolders(Categories[j], []);
    } else if p in CompleteArchive(catalog, assets).folders {
      var i :| 0 <= i < |catalog| && catalog[i].component.category in Categories && p == EntryDir(catalog[i]);
      var e := catalog[i];
      assert EntryDir(e) == e.component.category + "/" + (e.component.name + "/");
      TopLevelFolders(e.component.category, e.component.name + "/");
    }
  }

  /** The category folders by name. */
  lemma CategoryFolderName(p: string)
    ensures p in {"buttons/", "inputs/", "cards/", "navigation/"} <==>
      exists j :: 0 <= j < 4 && p == Categories[j] + "/"
  {
    assert Categories[0] + "/" == "buttons/" && Categories[1] + "/" == "inputs/";
    assert Categories[2] + "/" == "cards/" && Categories[3] + "/" == "navigation/";
  }

  /** `s` ends with `t`. */
  predicate EndsWith(s: string, t: string)
  {
    |t| <= |s| && s[|s| - |t|..] == t
  }

  /** A text ending with `t` ends with `t`'s last character, and with its
      last nine. */
  lemma EndsWithTail(s: string, t: string)
    ensures EndsWith(s, t) && |t| > 0 ==> s[|s| - 1] == t[|t| - 1]
    ensures EndsWith(s, t) && |t| >= 9 ==> s[|s| - 9] == t[|t| - 9]
  {
  }

  /** The complete archive never contains a usage guide. */
  lemma CompleteHasNoUsageGuide(catalog: Catalog, assets: Assets)
    ensures forall k :: k in CompleteArchive(catalog, assets).files ==> !EndsWith(k, "usage-guide.md")
  {
    forall k | k in CompleteArchive(catalog, assets).files
      ensures !EndsWith(k, "usage-guide.md")
    {
      CompleteFiles(catalog, assets, k);
      if k in RootNames {
        RootNameNotGuide(k);
      } else {
        var i :| 0 <= i < |catalog| && catalog[i].component.category in Categories && k in EntryPaths(catalog[i]);
        EntryPathNotGuide(catalog[i], k);
      }
    }
  }

  /** No root file is a usage guide. */
  lemma RootNameNotGuide(k: string)
    requires k in RootNames
    ensures !EndsWith(k, "usage-guide.md")
  {
    var guide := "usage-guide.md";
    assert guide[|guide| - 1] == 'd' && |guide| == 14;
    EndsWithTail(k, guide);
  }

  /** No file of an entry is a usage guide: the page and the stylesheet
      end otherwise, and the README differs nine characters from the end. */
  lemma EntryPathNotGuide(e: Entry, k: string)
    requires k in EntryPaths(e)
    ensures !EndsWith(k, "usage-guide.md")
  {
    var guide := "usage-guide.md";
    assert guide[|guide| - 1] == 'd' && guide[|guide| - 9] == '-' && |guide| == 14;
    EndsWithTail(k, guide);
    var h, s, r := EntryDir(e) + (e.id + ".html"), EntryDir(e) + (e.id + ".css"), EntryDir(e) + "README.md";
    assert h[|h| - 1] == 'l' && s[|s| - 1] == 's' && r[|r| - 9] == 'R';
  }

  // ---------------------------------------------------------------------
  // Where an entry's files are and what they hold
  // ---------------------------------------------------------------------

  /** Ids and names hold no path separator, so paths can be taken apart. */
  predicate PlainNames(catalog: Catalog)
  {
    forall i :: 0 <= i < |catalog| ==> '/' !in catalog[i].id && '/' !in catalog[i].component.name
  }

  /** No two entries share a category and a name, so no two share a folder. */
  predicate DistinctFolders(catalog: Catalog)
  {
    forall i, j :: 0 <= i < j < |catalog| && catalog[i].component.category == catalog[j].component.category
      ==> catalog[i].component.name != catalog[j].component.name
  }

  /** A path `<cat>/<name>/<file>` of separator-free parts splits into them. */
  lemma PathParts(cat: string, name: string, file: string)
    requires '/' !in cat && '/' !in name && '/' !in file
    ensures Split(cat + "/" + name + "/" + file, '/') == [cat, name, file]
  {
    var parts := [cat, name, file];
    assert Join(parts[2..], '/') == file;
    assert Join(parts[1..], '/') == name + ['/'] + file;
    assert Join(parts, '/') == cat + "/" + name + "/" + file;
    SplitJoin(parts, '/');
  }

  /** The file part of a path written for an entry. */
  function FilePart(e: Entry, k: string): string
  {
    if k == EntryDir(e) + (e.id + ".html") then e.id + ".html"
    else if k == EntryDir(e) + (e.id + ".css") then e.id + ".css"
    else "README.md"
  }

  /** A path written for an entry, taken apart: its category, its name and
      the file. */
  lemma EntryPathParts(e: Entry, k: string)
    requires k in EntryPaths(e)
    requires e.component.category in Categories && '/' !in e.component.name && '/' !in e.id
    ensures k == EntryDir(e) + FilePart(e, k)
    ensures Split(k, '/') == [e.component.category, e.component.name, FilePart(e, k)]
  {
    CategoriesPlain();
    assert '/' !in ".html" && '/' !in ".css" && '/' !in "README.md";
    PathParts(e.component.category, e.component.name, FilePart(e, k));
  }

  /** Two entries of the four categories writing the same path are the
      same entry, when names and ids are plain and folders distinct. */
  lemma SamePathSameEntry(catalog: Catalog, i: nat, j: nat, k: string)
    requires i < |catalog| && j < |catalog|
    requires catalog[i].component.category in Categories && catalog[j].component.category in Categories
    requires PlainNames(catalog) && DistinctFolders(catalog)
    requires k in EntryPaths(catalog[i]) && k in EntryPaths(catalog[j])
    ensures i == j
  {
    EntryPathParts(catalog[i], k);
    EntryPathParts(catalog[j], k);
    assert Split(k, '/')[0] == catalog[i].component.category == catalog[j].component.category;
    assert Split(k, '/')[1] == catalog[i].component.name == catalog[j].component.name;
  }

  /** The only call that writes a file of entry `i` is entry `i`'s own
      write. */
  lemma EntryWriteUnique(catalog: Catalog, assets: Assets, i: nat, k: string, w: Doc)
    requires i < |catalog| && catalog[i].component.category in Categories
    requires PlainNames(catalog) && DistinctFolders(catalog)
    requires k in EntryPaths(catalog[i])
    requires WriteFile(k, w) in CompleteOps(catalog, assets)
    ensures w == EntryDoc(catalog[i], k)
  {
    var e := catalog[i];
    EntryPathParts(e, k);
    EntryPathsNested(e, FilePart(e, k));
    RootNamesPlain();
    var j := CompleteWriteSource(catalog, assets, k, w);
    EntryOpsWrites(catalog[j], k, w);
    SamePathSameEntry(catalog, i, j, k);
  }

  /** Every entry of the four categories has its folder at
      `<category>/<name>/` holding its page, its stylesheet and its README,
      when names and ids are plain and folders distinct. */
  lemma CompleteEntry(catalog: Catalog, assets: Assets, i: nat)
    requires i < |catalog| && catalog[i].component.category in Categories
    requires PlainNames(catalog) && DistinctFolders(catalog)
    ensures var a, e := CompleteArchive(catalog, assets), catalog[i];
      EntryDir(e) in a.folders &&
      EntryPaths(e) <= a.files.Keys &&
      a.files[EntryDir(e) + (e.id + ".html")] == Page(e.component) &&
      a.files[EntryDir(e) + (e.id + ".css")] == Text(e.component.css) &&
      a.files[EntryDir(e) + "README.md"] == ReadmeOf(e.component)
  {
    var e := catalog[i];
    CompleteFolders(catalog, assets, EntryDir(e));
    forall k | k in EntryPaths(e)
      ensures k in CompleteArchive(catalog, assets).files
      ensures CompleteArchive(catalog, assets).files[k] == EntryDoc(e, k)
    {
      EntryFile(catalog, assets, i, k);
    }
    FileKindsDiffer(e.id, e.id);
    SameTail(EntryDir(e), e.id + ".html", e.id + ".css");
    SameTail(EntryDir(e), e.id + ".html", "README.md");
    SameTail(EntryDir(e), e.id + ".css", "README.md");
  }

  /** One file of an entry: present, and holding the entry's own file. */
  lemma EntryFile(catalog: Catalog, assets: Assets, i: nat, k: string)
    requires i < |catalog| && catalog[i].component.category in Categories
    requires PlainNames(catalog) && DistinctFolders(catalog)
    requires k in EntryPaths(catalog[i])
    ensures k in CompleteArchive(catalog, assets).files
    ensures CompleteArchive(catalog, assets).files[k] == EntryDoc(catalog[i], k)
  {
    var e := catalog[i];
    var v := EntryDoc(e, k);
    var ops := CompleteOps(catalog, assets);
    EntryOpsWrites(e, k, v);
    CategoriesOpsHasEntry(Categories, catalog, i, WriteFile(k, v));
    forall w | WriteFile(k, w) in ops
      ensures w == v
    {
      EntryWriteUnique(catalog, assets, i, k, w);
    }
    ApplyValue(Empty, ops, k, v);
  }

  /** An entry's folder holds only its own three files. */
  lemma CompleteEntryFolderOnly(catalog: Catalog, assets: Assets, i: nat, k: string)
    requires i < |catalog| && catalog[i].component.category in Categories
    requires PlainNames(catalog) && DistinctFolders(catalog)
    requires k in CompleteArchive(catalog, assets).files
    requires |EntryDir(catalog[i])| <= |k| && k[..|EntryDir(catalog[i])|] == EntryDir(catalog[i])
    ensures k in EntryPaths(catalog[i])
  {
    var e := catalog[i];
    var dir := EntryDir(e);
    var rest := k[|dir|..];
    assert k == dir + rest;
    EntryPathsNested(e, rest);
    RootNamesPlain();
    CompleteFiles(catalog, assets, k);
    var j :| 0 <= j < |catalog| && catalog[j].component.category in Categories && k in EntryPaths(catalog[j]);
    EntryPathParts(catalog[j], k);
    SameFolder(e, rest, catalog[j], FilePart(catalog[j], k));
  }

  /** Paths under the folders of two entries that coincide put the entries
      in the same category under the same name. */
  lemma SameFolder(e: Entry, rest: string, f: Entry, file: string)
    requires e.component.category in Categories && '/' !in e.component.name
    requires f.component.category in Categories && '/' !in f.component.name && '/' !in file
    requires EntryDir(e) + rest == EntryDir(f) + file
    ensures e.component.category == f.component.category && e.component.name == f.component.name
  {
    CategoriesPlain();
    var cat, name := e.component.category, e.component.name;
    assert EntryDir(e) + rest == cat + ['/'] + (name + ['/'] + rest);
    SplitAfter(name, rest, '/');
    SplitAfter(cat, name + ['/'] + rest, '/');
    var parts := Split(EntryDir(e) + rest, '/');
    assert parts == [cat] + ([name] + Split(rest, '/'));
    assert parts[0] == cat && parts[1] == name;
    PathParts(f.component.category, f.component.name, file);
  }

  // ---------------------------------------------------------------------
  // Start-up and the global entry points (download-system.js:903-932)
  // ---------------------------------------------------------------------

  /** The downloader the page ends up with: none when loading JSZip fails or
      when the constructor throws. */
  function Initialize(jszipLoaded: bool, getters: map<Getter, string>): (r: Option<Catalog>)
    ensures r.Some? <==> jszipLoaded && BuildCatalog(CatalogSources, getters).Success?
    ensures r.Some? ==> r.value == BuildCatalog(CatalogSources, getters).value && UniqueIds(r.value)
  {
    if !jszipLoaded then None
    else
      match BuildCatalog(CatalogSources, getters)
      case Failure(_) => None
      case Success(entries) =>
        BuiltIdsUnique(getters);
        Some(entries)
  }

  /** A catalog the constructor completes has unique ids. */
  lemma BuiltIdsUnique(getters: map<Getter, string>)
    requires BuildCatalog(CatalogSources, getters).Success?
    ensures UniqueIds(BuildCatalog(CatalogSources, getters).value)
  {
    SourceIdsDistinct();
  }

  /** The page-level `downloadComponent(id)`. */
  method GlobalDownloadComponent(downloader: Option<Catalog>, id: string) returns (r: Result<Download, string>)
    ensures downloader.None? ==> r == Failure("Component Downloader not initialized")
    ensures downloader.Some? && Lookup(downloader.value, id).None? ==>
      r == Failure("Component " + id + " not found")
    ensures downloader.Some? && Lookup(downloader.value, id).Some? ==>
      r == Success(Download(SingleArchive(id, Lookup(downloader.value, id).value),
        SingleArchiveName(id), Lookup(downloader.value, id).value.name))
  {
    if downloader.None? {
      return Failure("Component Downloader not initialized");
    }
    r := DownloadComponent(downloader.value, id);
  }

  /** The page-level `downloadAllComponents()`. */
  method GlobalDownloadAll(downloader: Option<Catalog>, assets: Assets) returns (r: Result<Download, string>)
    ensures downloader.None? <==> r == Failure("Component Downloader not initialized")
    ensures downloader.Some? ==> r == Success(Download(CompleteArchive(downloader.value, assets),
      CompleteArchiveName, CompleteNotice))
  {
    if downloader.None? {
      return Failure("Component Downloader not initialized");
    }
    var d := DownloadAllComponents(downloader.value, assets);
    r := Success(d);
  }

  /** As written, the page never gets a downloader: with the getters the
      class declares, the constructor throws, so both page-level entry points
      only ever report that the downloader is not initialized. */
  lemma InitializeAsWritten(jszipLoaded: bool, getters: map<Getter, string>)
    requires forall g :: g in getters <==> Declared(g)
    ensures Initialize(jszipLoaded, getters) == None
  {
    ConstructorAsWritten(getters);
  }
}
