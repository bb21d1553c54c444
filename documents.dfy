/** The three text documents `ComponentDownloader` writes for a component
    (download-system.js:201-293 and 857-884): a standalone demo page, a
    README and a usage guide. The fixed template text is kept verbatim; the
    properties are stated about where the interpolated values land. */
module Documents {
  import opened Text
  import opened CssClasses
  import opened Catalog

  /** `getThemeCSS()` and `getComponentsCSS()` (download-system.js:471-479):
      placeholder comments standing for the two shared stylesheets. */
  const ThemeCSS: string := "/* Linear Theme CSS content would go here */"
  const ComponentsCSS: string := "/* Linear Components CSS content would go here */"

  /** `part` occurs in `s` starting at index `i`. */
  predicate OccursAt(s: string, part: string, i: int)
  {
    0 <= i && i + |part| <= |s| && s[i..i + |part|] == part
  }

  // ---------------------------------------------------------------------
  // generateStandaloneHTML (download-system.js:201-252)
  // ---------------------------------------------------------------------

  /** The fixed stretches of the page template that hold no component data:
      the head up to the title, the font link up to the theme, and the
      page's own rules up to the heading text. */
  datatype PageText = PageText(headMeta: string, fontLink: string, demoStyles: string)

  /** The page as a sequence of pieces: fixed text, with the component's
      name, the theme, the component's stylesheet and its markup spliced in. */
  function PageWith(c: Component, t: PageText): seq<string>
  {
    [ "<!DOCTYPE html>",
      t.headMeta,
      "<title>" + c.name + " - Linear Design System</title>",
      t.fontLink,
      ThemeCSS,
      "\n        ",
      c.css,
      t.demoStyles,
      c.name,
      "</h1>\n        ",
      "<div class=\"demo-section\">\n            " + c.html,
      "\n        </div>\n    </div>\n</body>\n",
      "</html>" ]
  }

  /** The template `generateStandaloneHTML` fills in. */
  const Template: PageText := PageText(HeadMeta, FontLink, DemoStyles)

  function PageParts(c: Component): seq<string>
  {
    PageWith(c, Template)
  }

  /** From the end of the doctype line to the title element. */
  const HeadMeta: string :=
    "\n<html lang=\"ko\">\n" +
    "<head>\n" +
    "    <meta charset=\"UTF-8\">\n" +
    "    <meta name=\"viewport\" " +
    "content=\"width=device-width, initial-scale=1.0\">\n" +
    "    "

  /** The web-font link and the opening of the `<style>` element. */
  const FontLink: string :=
    "\n    <link href=\"https://fonts.googleapis.com/css2?" +
    "family=Inter:wght@300;400;500;600;700&display=swap\" " +
    "rel=\"stylesheet\">\n" +
    "    <style>\n" +
    "        "

  /** The page's own rules, closed `<head>` and the heading up to the name. */
  const DemoStyles: string :=
    "\n" +
    "        \n" +
    "        body {\n" +
    "            padding: 40px;\n" +
    "            background-color: var(--color-bg-primary);\n" +
    "            color: var(--color-text-primary);\n" +
    "        }\n" +
    "        \n" +
    "        .demo-container {\n" +
    "            max-width: 800px;\n" +
    "            margin: 0 auto;\n" +
    "        }\n" +
    "        \n" +
    "        .demo-title {\n" +
    "            font-size: var(--text-3xl);\n" +
    "            font-weight: var(--font-bold);\n" +
    "            margin-bottom: var(--spacing-8);\n" +
    "            background: var(--gradient-text);\n" +
    "            -webkit-background-clip: text;\n" +
    "            -webkit-text-fill-color: transparent;\n" +
    "            background-clip: text;\n" +
    "        }\n" +
    "        \n" +
    "        .demo-section {\n" +
    "            margin-bottom: var(--spacing-12);\n" +
    "            padding: var(--spacing-8);\n" +
    "            background-color: var(--color-bg-secondary);\n" +
    "            border: 1px solid var(--color-border);\n" +
    "            border-radius: var(--radius-lg);\n" +
    "        }\n" +
    "    </style>\n" +
    "</head>\n" +
    "<body>\n" +
    "    <div class=\"demo-container\">\n" +
    "        <h1 class=\"demo-title\">"

  /** `generateStandaloneHTML(component)`. */
  function StandaloneHTML(c: Component): string
  {
    Concat(PageParts(c))
  }

  /** Where things land in the demo page: it is a complete HTML document,
      the title carries the component name, and the theme, the component's
      stylesheet and its markup appear in that order, the markup right after
      the opening of the demo section. */
  lemma StandaloneHTMLLayout(c: Component) returns (title: nat, theme: nat, css: nat, html: nat)
    ensures var doc := StandaloneHTML(c);
      OccursAt(doc, "<!DOCTYPE html>", 0) &&
      OccursAt(doc, "</html>", |doc| - 7) &&
      OccursAt(doc, "<title>" + c.name + " - Linear Design System</title>", title) &&
      OccursAt(doc, ThemeCSS, theme) &&
      OccursAt(doc, c.css, css) &&
      OccursAt(doc, "<div class=\"demo-section\">\n            " + c.html, html) &&
      title < theme && theme + |ThemeCSS| <= css && css + |c.css| <= html
  {
    title, theme, css, html := PageLayout(c, Template);
  }

  /** The layout holds whatever the fixed stretches say. */
  lemma PageLayout(c: Component, t: PageText) returns (title: nat, theme: nat, css: nat, html: nat)
    ensures var doc := Concat(PageWith(c, t));
      OccursAt(doc, "<!DOCTYPE html>", 0) &&
      OccursAt(doc, "</html>", |doc| - 7) &&
      OccursAt(doc, "<title>" + c.name + " - Linear Design System</title>", title) &&
      OccursAt(doc, ThemeCSS, theme) &&
      OccursAt(doc, c.css, css) &&
      OccursAt(doc, "<div class=\"demo-section\">\n            " + c.html, html) &&
      title < theme && theme + |ThemeCSS| <= css && css + |c.css| <= html
  {
    var parts := PageWith(c, t);
    assert |parts| == 13 && parts[0] == "<!DOCTYPE html>" && parts[12] == "</html>";
    assert parts[2] == "<title>" + c.name + " - Linear Design System</title>";
    assert parts[4] == ThemeCSS && parts[6] == c.css;
    assert parts[10] == "<div class=\"demo-section\">\n            " + c.html;
    title, theme, css, html := PiecesInOrder(parts, [2, 4, 6, 10]);
  }

  /** Pieces `0` and `|parts| - 1` sit at the two ends, and any increasing
      choice of pieces appears in that order. */
  lemma PiecesInOrder(parts: seq<string>, picks: seq<nat>) returns (a: nat, b: nat, c: nat, d: nat)
    requires |parts| >= 2 && |picks| == 4
    requires 0 < picks[0] < picks[1] < picks[2] < picks[3] < |parts| - 1
    ensures var doc := Concat(parts);
      OccursAt(doc, parts[0], 0) &&
      OccursAt(doc, parts[|parts| - 1], |doc| - |parts[|parts| - 1]|) &&
      OccursAt(doc, parts[picks[0]], a) && OccursAt(doc, parts[picks[1]], b) &&
      OccursAt(doc, parts[picks[2]], c) && OccursAt(doc, parts[picks[3]], d) &&
      a + |parts[picks[0]]| <= b && b + |parts[picks[1]]| <= c && c + |parts[picks[2]]| <= d
  {
    PiecesAtEnds(parts);
    a := PickAt(parts, picks[0]);
    b := PickAt(parts, picks[1]);
    c := PickAt(parts, picks[2]);
    d := PickAt(parts, picks[3]);
    PiecesOrdered(parts, picks[0], picks[1]);
    PiecesOrdered(parts, picks[1], picks[2]);
    PiecesOrdered(parts, picks[2], picks[3]);
  }

  /** Where piece `k` starts: after the pieces before it. */
  lemma PickAt(parts: seq<string>, k: nat) returns (at: nat)
    requires k < |parts|
    ensures at == |Concat(parts[..k])| && OccursAt(Concat(parts), parts[k], at)
  {
    at := |Concat(parts[..k])|;
    PieceAt(parts, k);
  }

  /** The first piece opens the text and the last one closes it. */
  lemma PiecesAtEnds(parts: seq<string>)
    requires |parts| >= 1
    ensures var doc := Concat(parts);
      OccursAt(doc, parts[0], 0) && OccursAt(doc, parts[|parts| - 1], |doc| - |parts[|parts| - 1]|)
  {
    FirstPiece(parts);
    LastPiece(parts);
  }

  lemma FirstPiece(parts: seq<string>)
    requires |parts| >= 1
    ensures OccursAt(Concat(parts), parts[0], 0)
  {
    assert parts[..0] == [];
    PieceAt(parts, 0);
  }

  lemma LastPiece(parts: seq<string>)
    requires |parts| >= 1
    ensures OccursAt(Concat(parts), parts[|parts| - 1], |Concat(parts)| - |parts[|parts| - 1]|)
  {
    var n := |parts|;
    PiecesBetween(parts, n - 1);
    assert parts[..n] == parts;
    assert |Concat(parts[..n - 1])| == |Concat(parts)| - |parts[n - 1]|;
    PieceAt(parts, n - 1);
  }

  /** An earlier piece ends before a later one starts. */
  lemma PiecesOrdered(parts: seq<string>, i: nat, j: nat)
    requires i < j <= |parts|
    ensures |Concat(parts[..i])| + |parts[i]| <= |Concat(parts[..j])|
  {
    PiecesBetween(parts, i);
    ConcatPrefixGrows(parts, i + 1, j);
  }

  /** The pieces from `k` up to `k + 1` are just piece `k`. */
  lemma PiecesBetween(parts: seq<string>, k: nat)
    requires k < |parts|
    ensures |Concat(parts[..k])| + |parts[k]| == |Concat(parts[..k + 1])|
  {
    ConcatPrefixGrows(parts, k, k + 1);
    assert parts[k..k + 1] == [parts[k]];
    assert parts[k..k + 1][1..] == [];
  }

  // ---------------------------------------------------------------------
  // generateReadme (download-system.js:255-293)
  // ---------------------------------------------------------------------

  /** The README up to the class list, line by line: the name in the title
      and the first sentence, the markup in a fenced `html` block. */
  function HeadLines(name: string, html: string): seq<string>
  {
    ["# " + name] + HeadBody(name, html)
  }

  /** The head after its title line. */
  function HeadBody(name: string, html: string): seq<string>
  {
    [
      "",
      "Linear Design System에서 제공하는 " + name + " 컴포넌트입니다.",
      "",
      "## 사용법",
      "",
      "1. `linear-theme.css`와 `linear-components.css`를 " +
      "HTML 문서에 포함시키세요.",
      "2. Inter 폰트를 로드하세요.",
      "3. 아래 HTML 구조를 사용하세요.",
      "",
      "## HTML 구조",
      "",
      "```html",
      html,
      "```",
      "",
      "## CSS 클래스",
      "",
      "이 컴포넌트는 다음 CSS 클래스들을 사용합니다:",
      ""]
  }

  function ReadmeHead(name: string, html: string): string
  {
    Join(HeadLines(name, html), '\n')
  }

  /** The heading of the required-files list, between two blank lines. */
  const FilesHeading: string := Join(["", "## 필요한 파일", ""], '\n')

  const ReadmeTail: string := Join([
    "",
    "## 브라우저 지원",
    "",
    "- Chrome 90+",
    "- Firefox 88+",
    "- Safari 14+",
    "- Edge 90+",
    "",
    "## 라이선스",
    "",
    "이 컴포넌트는 오클러 프로젝트의 일부입니다.",
    ""], '\n')

  /** `- \`.cls\`` for each class, in the extractor's order. */
  function ClassBullets(classes: seq<string>): (r: seq<string>)
    ensures |r| == |classes|
  {
    seq(|classes|, i requires 0 <= i < |classes| => "- `." + classes[i] + "`")
  }

  /** `- file` for each required file. */
  function FileBullets(files: seq<string>): (r: seq<string>)
    ensures |r| == |files|
  {
    seq(|files|, i requires 0 <= i < |files| => "- " + files[i])
  }

  /** The five sections of the README, joined by line breaks: the class list
      is what the stylesheet extractor reports for the component's
      stylesheet, the file list the component's `files`. */
  function ReadmeSections(c: Component): seq<string>
  {
    [ ReadmeHead(c.name, c.html),
      Join(ClassBullets(ExtractCSSClasses(c.css)), '\n'),
      FilesHeading,
      Join(FileBullets(c.files), '\n'),
      ReadmeTail ]
  }

  /** `generateReadme(component)`. */
  function Readme(c: Component): string
  {
    Join(ReadmeSections(c), '\n')
  }

  /** The lines a joined list contributes: an empty list still leaves one
      empty line. */
  function ListLines(items: seq<string>): (r: seq<string>)
    ensures |r| >= 1
  {
    if items == [] then [""] else items
  }

  /** A list joined with the separator splits back into its items. */
  lemma JoinedLines(items: seq<string>, sep: char)
    requires forall i :: 0 <= i < |items| ==> sep !in items[i]
    ensures Split(Join(items, sep), sep) == ListLines(items)
  {
    if items != [] {
      SplitJoin(items, sep);
    }
  }

  /** A class bullet is one line: class names hold no line break. */
  lemma ClassBulletsAreLines(classes: seq<string>)
    requires forall i :: 0 <= i < |classes| ==> forall ch :: ch in classes[i] ==> IsClassChar(ch)
    ensures forall i :: 0 <= i < |classes| ==> '\n' !in ClassBullets(classes)[i]
  {
    forall i | 0 <= i < |classes|
      ensures '\n' !in ClassBullets(classes)[i]
    {
      var b := ClassBullets(classes)[i];
      assert b == "- `." + classes[i] + "`";
      assert !IsClassChar('\n');
    }
  }

  /** A file bullet is one line when the file name is. */
  lemma FileBulletsAreLines(files: seq<string>)
    requires forall i :: 0 <= i < |files| ==> '\n' !in files[i]
    ensures forall i :: 0 <= i < |files| ==> '\n' !in FileBullets(files)[i]
  {
    forall i | 0 <= i < |files|
      ensures '\n' !in FileBullets(files)[i]
    {
      assert FileBullets(files)[i] == "- " + files[i];
    }
  }

  /** The README's lines: the head, then exactly one line per extracted class
      (an empty line when there is none), the files heading, exactly one line
      per required file, and the fixed tail. */
  lemma ReadmeLines(c: Component)
    requires forall i :: 0 <= i < |c.files| ==> '\n' !in c.files[i]
    ensures Split(Readme(c), '\n') ==
      Split(ReadmeHead(c.name, c.html), '\n') +
      ListLines(ClassBullets(ExtractCSSClasses(c.css))) +
      Split(FilesHeading, '\n') +
      ListLines(FileBullets(c.files)) +
      Split(ReadmeTail, '\n')
  {
    ExtractedBulletsAreLines(c.css);
    FileBulletsAreLines(c.files);
    var sections := ReadmeSections(c);
    ListSections(sections, ClassBullets(ExtractCSSClasses(c.css)), FileBullets(c.files), '\n');
  }

  /** The bullets of the extracted classes are single lines. */
  lemma ExtractedBulletsAreLines(css: string)
    ensures forall i :: 0 <= i < |ExtractCSSClasses(css)| ==> '\n' !in ClassBullets(ExtractCSSClasses(css))[i]
  {
    var classes := ExtractCSSClasses(css);
    ExtractedClassesExact(css);
    ClassMatchesWellFormed(css);
    ClassBulletsAreLines(classes);
  }

  /** Five sections whose second and fourth are joined one-line items. */
  lemma ListSections(s: seq<string>, xs: seq<string>, ys: seq<string>, sep: char)
    requires |s| == 5 && s[1] == Join(xs, sep) && s[3] == Join(ys, sep)
    requires forall i :: 0 <= i < |xs| ==> sep !in xs[i]
    requires forall i :: 0 <= i < |ys| ==> sep !in ys[i]
    ensures Split(Join(s, sep), sep) ==
      Split(s[0], sep) + ListLines(xs) + Split(s[2], sep) + ListLines(ys) + Split(s[4], sep)
  {
    JoinedLines(xs, sep);
    JoinedLines(ys, sep);
    SplitJoinEach(s, sep);
    FiveSections(s, sep);
  }

  /** `SplitEach` over five sections, written out. */
  lemma FiveSections(s: seq<string>, sep: char)
    requires |s| == 5
    ensures SplitEach(s, sep) ==
      Split(s[0], sep) + Split(s[1], sep) + Split(s[2], sep) + Split(s[3], sep) + Split(s[4], sep)
  {
    FourParts(s, sep);
    assert s[4..][1..] == [];
  }

  /** The README's first line is the component's name as a level-one heading. */
  lemma ReadmeTitle(c: Component)
    requires '\n' !in c.name
    ensures Split(Readme(c), '\n')[0] == "# " + c.name
  {
    var head := HeadLines(c.name, c.html);
    assert head[0] == "# " + c.name;
    FirstLineOfFirstPart(ReadmeSections(c), head, '\n');
  }

  /** A one-line title opening the first part is the first line of the
      whole join. */
  lemma FirstLineOfFirstPart(parts: seq<string>, head: seq<string>, sep: char)
    requires |parts| > 0 && |head| > 0 && parts[0] == Join(head, sep) && sep !in head[0]
    ensures Split(Join(parts, sep), sep)[0] == head[0]
  {
    FirstLine(parts, sep);
    FirstLine(head, sep);
    SplitPlain(head[0], sep);
  }

  /** The first line of a join is the first part's first line. */
  lemma FirstLine(parts: seq<string>, sep: char)
    requires |parts| > 0
    ensures Split(Join(parts, sep), sep)[0] == Split(parts[0], sep)[0]
  {
    SplitJoinEach(parts, sep);
  }

  // ---------------------------------------------------------------------
  // generateUsageGuide (download-system.js:857-884)
  // ---------------------------------------------------------------------

  /** The guide line by line; only the title and the overview sentence
      depend on the component, through its name. */
  function GuideLines(name: string): seq<string>
  {
    [ "# " + name + " 사용 가이드",
      "",
      "## 개요",
      name + "은 Linear Design System의 일부로, " +
      "모던하고 미니멀한 디자인을 제공합니다.",
      "",
      "## 기본 사용법",
      "1. 필요한 CSS 파일들을 포함시키세요",
      "2. HTML 구조를 복사하여 사용하세요",
      "3. 필요에 따라 CSS 변수를 수정하여 커스터마이징하세요",
      "",
      "## 커스터마이징",
      "CSS 변수를 통해 쉽게 색상과 크기를 조정할 수 있습니다:",
      "",
      "```css",
      ":root {",
      "  --color-brand-primary: #your-color;",
      "  --spacing-4: 20px;",
      "}",
      "```",
      "",
      "## 접근성",
      "이 컴포넌트는 WCAG 2.1 AA 기준을 준수합니다:",
      "- 키보드 네비게이션 지원",
      "- 적절한 대비율",
      "- 스크린 리더 호환성",
      "" ]
  }

  /** `generateUsageGuide(component)`: depends on the component's name only. */
  function UsageGuide(name: string): string
  {
    Join(GuideLines(name), '\n')
  }

  /** The guide opens with the heading `# <name> 사용 가이드`, a blank line
      and the overview heading, and the overview sentence starts with the
      name. */
  lemma UsageGuideOpening(name: string)
    requires '\n' !in name
    ensures var lines := Split(UsageGuide(name), '\n');
      |lines| >= 4 &&
      lines[0] == "# " + name + " 사용 가이드" &&
      lines[1] == "" &&
      lines[2] == "## 개요" &&
      |lines[3]| >= |name| && lines[3][..|name|] == name
  {
    var g := GuideLines(name);
    var sentence := g[3][|name|..];
    assert g[3] == name + sentence;
    FirstLinePrefix(name, sentence, '\n');
    OpeningOf(g, '\n');
  }

  /** The first four lines of a join whose first three parts are single
      lines. */
  lemma OpeningOf(parts: seq<string>, sep: char)
    requires |parts| >= 4 && sep !in parts[0] && sep !in parts[1] && sep !in parts[2]
    ensures var lines := Split(Join(parts, sep), sep);
      |lines| >= 4 && lines[0] == parts[0] && lines[1] == parts[1] && lines[2] == parts[2] &&
      lines[3] == Split(parts[3], sep)[0]
  {
    SplitJoinEach(parts, sep);
    FourParts(parts, sep);
    SplitPlain(parts[0], sep);
    SplitPlain(parts[1], sep);
    SplitPlain(parts[2], sep);
  }

  /** `SplitEach` over the first four parts, written out. */
  lemma FourParts(s: seq<string>, sep: char)
    requires |s| >= 4
    ensures SplitEach(s, sep) ==
      Split(s[0], sep) + Split(s[1], sep) + Split(s[2], sep) + Split(s[3], sep) + SplitEach(s[4..], sep)
  {
    var t := s[4..];
    assert s == [s[0]] + ([s[1]] + ([s[2]] + ([s[3]] + t)));
    SplitEachCons(s[3], t, sep);
    SplitEachCons(s[2], [s[3]] + t, sep);
    SplitEachCons(s[1], [s[2]] + ([s[3]] + t), sep);
    SplitEachCons(s[0], [s[1]] + ([s[2]] + ([s[3]] + t)), sep);
    Associate(Split(s[0], sep), Split(s[1], sep), Split(s[2], sep), Split(s[3], sep), SplitEach(t, sep));
  }

  lemma SplitEachCons(p: string, t: seq<string>, sep: char)
    ensures SplitEach([p] + t, sep) == Split(p, sep) + SplitEach(t, sep)
  {
    assert ([p] + t)[0] == p && ([p] + t)[1..] == t;
  }

  lemma Associate(a: seq<string>, b: seq<string>, c: seq<string>, d: seq<string>, e: seq<string>)
    ensures a + (b + (c + (d + e))) == a + b + c + d + e
  {
  }
}
