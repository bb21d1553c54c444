/** The component catalog of `ComponentDownloader` (download-system.js:3-118):
    a read-only table from component id to descriptor. The markup and
    stylesheet texts come from per-component getter methods; here they are
    opaque strings supplied by a table of getter results. */
module Catalog {
  import opened Wrappers
  import opened CssClasses

  /** One catalog record: display name, category, required shared files,
      markup, stylesheet and preview-image name. */
  datatype Component = Component(
    name: string,
    category: string,
    files: seq<string>,
    html: string,
    css: string,
    preview: string)

  datatype Entry = Entry(id: string, component: Component)

  /** Keys of a JavaScript object are unique. */
  predicate UniqueIds(entries: seq<Entry>)
  {
    forall i, j :: 0 <= i < j < |entries| ==> entries[i].id != entries[j].id
  }

  /** The catalog object, in its insertion (enumeration) order. */
  type Catalog = entries: seq<Entry> | UniqueIds(entries) witness []

  /** The four category folders of the complete archive, in the order the
      archive builder visits them. */
  const Categories: seq<string> := ["buttons", "inputs", "cards", "navigation"]

  /** The shared files every component lists as required. */
  const SharedFiles: seq<string> := ["linear-theme.css", "linear-components.css"]

  /** `this.components[id]`. */
  function Lookup(catalog: Catalog, id: string): (r: Option<Component>)
    ensures r.None? <==> forall i :: 0 <= i < |catalog| ==> catalog[i].id != id
    ensures r.Some? ==> Entry(id, r.value) in catalog
  {
    if |catalog| == 0 then None
    else if catalog[0].id == id then Some(catalog[0].component)
    else Lookup(catalog[1..], id)
  }

  /** With unique keys, looking up an id finds exactly the entry stored under it. */
  lemma LookupFindsEntry(catalog: Catalog, i: int)
    requires 0 <= i < |catalog|
    ensures Lookup(catalog, catalog[i].id) == Some(catalog[i].component)
  {
    var r := Lookup(catalog, catalog[i].id);
    var k :| 0 <= k < |catalog| && catalog[k] == Entry(catalog[i].id, r.value);
    assert k == i;
  }

  // ---------------------------------------------------------------------
  // Construction of the catalog (download-system.js:4-117)
  // ---------------------------------------------------------------------

  /** The thirteen catalog entries; each owns one HTML and one CSS getter. */
  datatype Stem =
    | PrimaryButtons | SecondaryButtons | GhostButtons | DangerButtons
    | TextInputs | InputStates | Toggles | SearchInput
    | BasicCards | GlassCards | FeatureCards | MetricCards
    | SidebarNav

  datatype Kind = Html | Css

  /** A getter method such as `getPrimaryButtonsHTML`. */
  datatype Getter = Getter(stem: Stem, kind: Kind)

  /** The literal part of one entry of the constructor's object literal. */
  datatype EntrySource = EntrySource(id: string, name: string, category: string, stem: Stem)

  const CatalogSources: seq<EntrySource> := [
    EntrySource("primary-buttons", "Primary Buttons", "buttons", PrimaryButtons),
    EntrySource("secondary-buttons", "Secondary Buttons", "buttons", SecondaryButtons),
    EntrySource("ghost-buttons", "Ghost Buttons", "buttons", GhostButtons),
    EntrySource("danger-buttons", "Danger Buttons", "buttons", DangerButtons),
    EntrySource("text-inputs", "Text Inputs", "inputs", TextInputs),
    EntrySource("input-states", "Input States", "inputs", InputStates),
    EntrySource("toggles", "Toggle Switches", "inputs", Toggles),
    EntrySource("search-input", "Search Input", "inputs", SearchInput),
    EntrySource("basic-cards", "Basic Cards", "cards", BasicCards),
    EntrySource("glass-cards", "Glass Cards", "cards", GlassCards),
    EntrySource("feature-cards", "Feature Cards", "cards", FeatureCards),
    EntrySource("metric-cards", "Metric Cards", "cards", MetricCards),
    EntrySource("sidebar-nav", "Sidebar Navigation", "navigation", SidebarNav)
  ]

  /** The getters the class actually declares (download-system.js:518-855):
      those of the button and input entries only. */
  predicate Declared(g: Getter)
  {
    g.stem in {PrimaryButtons, SecondaryButtons, GhostButtons, DangerButtons,
               TextInputs, InputStates, Toggles, SearchInput}
  }

  /** Calling a method the class does not have throws a `TypeError`
      ("this.getX is not a function"). */
  datatype ConstructionError = NotAFunction(getter: Getter)

  /** Preview-image name of an entry: `<id>-preview.png`. */
  function PreviewOf(id: string): string
  {
    id + "-preview.png"
  }

  /** Evaluates the object literal entry by entry, calling each entry's HTML
      getter and then its CSS getter; `getters` holds the text each existing
      getter returns, and a missing getter aborts the whole constructor. */
  function BuildCatalog(sources: seq<EntrySource>, getters: map<Getter, string>): (r: Result<seq<Entry>, ConstructionError>)
    ensures r.Success? <==> forall i :: 0 <= i < |sources| ==>
      Getter(sources[i].stem, Html) in getters && Getter(sources[i].stem, Css) in getters
    ensures r.Success? ==> |r.value| == |sources|
    ensures r.Success? ==> forall i :: 0 <= i < |sources| ==>
      r.value[i].id == sources[i].id &&
      r.value[i].component == Component(sources[i].name, sources[i].category, SharedFiles,
        getters[Getter(sources[i].stem, Html)], getters[Getter(sources[i].stem, Css)], PreviewOf(sources[i].id))
    ensures r.Failure? ==> exists i :: 0 <= i < |sources| && r.error.getter.stem == sources[i].stem
  {
    if |sources| == 0 then Success([])
    else
      var s := sources[0];
      var h := Getter(s.stem, Html);
      var c := Getter(s.stem, Css);
      if h !in getters then Failure(NotAFunction(h))
      else if c !in getters then Failure(NotAFunction(c))
      else
        match BuildCatalog(sources[1..], getters)
        case Failure(e) => Failure(e)
        case Success(rest) =>
          Success([Entry(s.id, Component(s.name, s.category, SharedFiles, getters[h], getters[c], PreviewOf(s.id)))] + rest)
  }

  /** As written, the constructor throws at the first card entry: the class
      never declares `getBasicCardsHTML` (nor any getter of the card and
      navigation entries). */
  lemma ConstructorAsWritten(getters: map<Getter, string>)
    requires forall g :: g in getters <==> Declared(g)
    ensures BuildCatalog(CatalogSources, getters) == Failure(NotAFunction(Getter(BasicCards, Html)))
  {
    FailsAtFirstMissing(CatalogSources, 8, getters);
  }

  /** The constructor stops at the first entry whose HTML getter is missing
      when every earlier entry has both of its getters. */
  lemma {:induction false} FailsAtFirstMissing(sources: seq<EntrySource>, k: nat, getters: map<Getter, string>)
    requires k < |sources| && Getter(sources[k].stem, Html) !in getters
    requires forall i :: 0 <= i < k ==>
      Getter(sources[i].stem, Html) in getters && Getter(sources[i].stem, Css) in getters
    ensures BuildCatalog(sources, getters) == Failure(NotAFunction(Getter(sources[k].stem, Html)))
  {
    if k > 0 {
      FailsAtFirstMissing(sources[1..], k - 1, getters);
    }
  }

  /** With every getter present the constructor yields the thirteen entries,
      with unique ids, each in one of the four categories. */
  lemma ConstructorCorrected(getters: map<Getter, string>)
    requires forall g: Getter :: g in getters
    ensures BuildCatalog(CatalogSources, getters).Success?
    ensures var entries := BuildCatalog(CatalogSources, getters).value;
      |entries| == 13 && UniqueIds(entries) &&
      forall i :: 0 <= i < |entries| ==> entries[i].component.category in Categories
  {
    SourceIdsDistinct();
    SourceCategoriesListed();
    BuildsEverySource(CatalogSources, getters);
  }

  /** With every getter present each source becomes the entry at its
      position, with its id and its category. */
  lemma BuildsEverySource(sources: seq<EntrySource>, getters: map<Getter, string>)
    requires forall g: Getter :: g in getters
    ensures BuildCatalog(sources, getters).Success?
    ensures var entries := BuildCatalog(sources, getters).value;
      |entries| == |sources| &&
      forall i :: 0 <= i < |sources| ==>
        entries[i].id == sources[i].id && entries[i].component.category == sources[i].category
  {
  }

  /** The constructor's ids are pairwise different. */
  lemma SourceIdsDistinct()
    ensures forall i, j :: 0 <= i < j < |CatalogSources| ==> CatalogSources[i].id != CatalogSources[j].id
  {
    forall i, j | 0 <= i < j < |CatalogSources|
      ensures CatalogSources[i].id != CatalogSources[j].id
    {
      DistinctIds(i, j);
    }
  }

  /** Every entry of the constructor names one of the four categories. */
  lemma SourceCategoriesListed()
    ensures forall i :: 0 <= i < |CatalogSources| ==> CatalogSources[i].category in Categories
  {
  }

  /** The thirteen ids of the constructor are pairwise different. */
  lemma DistinctIds(i: int, j: int)
    requires 0 <= i < j < |CatalogSources|
    ensures CatalogSources[i].id != CatalogSources[j].id
  {
    var a := CatalogSources[i].id;
    var b := CatalogSources[j].id;
    if |a| == |b| {
      assert a[0] != b[0];
    }
  }

  // ---------------------------------------------------------------------
  // Stylesheets whose class lists the README reports
  // ---------------------------------------------------------------------

  /** `getPrimaryButtonsCSS()` (download-system.js:527-538): two rules for
      the same class, the second with pseudo-classes. */
  const PrimaryButtonsCSS: string :=
    "." + PrimaryClass + PrimaryRule + "." + PrimaryClass + PrimaryHoverRule

  const PrimaryClass: string := "linear-btn-primary"

  const PrimaryRule: string :=
    " {\n" +
    "    background: linear-gradient(135deg, " +
    "#5e6ad2 0%, #7c3aed 100%);\n" +
    "    color: var(--color-text-primary);\n" +
    "    box-shadow: var(--shadow-sm);\n" +
    "}\n" +
    "\n"

  const PrimaryHoverRule: string :=
    ":hover:not(:disabled) {\n" +
    "    box-shadow: var(--shadow-md);\n" +
    "    transform: translateY(-1px);\n" +
    "}"

  /** The primary-button stylesheet names one class, once in each of its two
      rules; the pseudo-classes after the colon are not reported. */
  lemma PrimaryButtonsClasses()
    ensures ExtractCSSClasses(PrimaryButtonsCSS) == ["linear-btn-primary"]
  {
    PrimaryClassChars();
    PrimaryRuleEnds();
    PrimaryRuleNoDot();
    PrimaryHoverRuleFacts();
    TwoRulesOneClass(PrimaryClass, PrimaryRule, PrimaryHoverRule);
  }

  /** A stylesheet of two dot-free rule bodies, each after `.name`, reports
      `name` once. */
  lemma TwoRulesOneClass(n: string, r1: string, r2: string)
    requires n != [] && forall c :: c in n ==> IsClassChar(c)
    requires r1 != [] && '.' !in r1 && !IsClassChar(r1[0]) && !IsClassChar(r1[|r1| - 1])
    requires '.' !in r2 && (r2 == [] || !IsClassChar(r2[0]))
    ensures ExtractCSSClasses("." + n + r1 + "." + n + r2) == [n]
  {
    TwoRulesMatches(n, r1, r2);
    assert [n][..0] == [];
    assert Dedup([n]) == [n];
    assert [n, n][..1] == [n];
  }

  lemma TwoRulesMatches(n: string, r1: string, r2: string)
    requires n != [] && forall c :: c in n ==> IsClassChar(c)
    requires r1 != [] && '.' !in r1 && !IsClassChar(r1[0]) && !IsClassChar(r1[|r1| - 1])
    requires '.' !in r2 && (r2 == [] || !IsClassChar(r2[0]))
    ensures ClassMatches("." + n + r1 + "." + n + r2) == [n, n]
  {
    var first, second := "." + n + r1, "." + n + r2;
    OneRuleMatches(n, r1);
    OneRuleMatches(n, r2);
    assert first[|first| - 1] == r1[|r1| - 1];
    AdjacentRules(first, second, n);
    RulesAssociate(n, r1, r2);
  }

  lemma RulesAssociate(n: string, r1: string, r2: string)
    ensures "." + n + r1 + "." + n + r2 == ("." + n + r1) + ("." + n + r2)
  {
  }

  lemma AdjacentRules(a: string, b: string, n: string)
    requires a != [] && a[|a| - 1] != '.' && !IsClassChar(a[|a| - 1])
    requires ClassMatches(a) == [n] && ClassMatches(b) == [n]
    ensures ClassMatches(a + b) == [n, n]
  {
    ClassMatchesConcat(a, b);
  }

  lemma OneRuleMatches(n: string, r: string)
    requires n != [] && forall c :: c in n ==> IsClassChar(c)
    requires '.' !in r && (r == [] || !IsClassChar(r[0]))
    ensures ClassMatches("." + n + r) == [n]
  {
    LeadingClass(n, r);
    NoDotNoMatches(r);
  }

  lemma PrimaryClassChars()
    ensures PrimaryClass != [] && forall c :: c in PrimaryClass ==> IsClassChar(c)
  {
  }

  lemma PrimaryRuleEnds()
    ensures |PrimaryRule| > 0 && PrimaryRule[0] == ' ' && PrimaryRule[|PrimaryRule| - 1] == '\n'
  {
  }

  lemma PrimaryRuleNoDot()
    ensures '.' !in PrimaryRule
  {
    var a, b, c, d := " {\n", "    background: linear-gradient(135deg, ", "#5e6ad2 0%, #7c3aed 100%);\n", "    color: var(--color-text-primary);\n";
    var e, f, g := "    box-shadow: var(--shadow-sm);\n", "}\n", "\n";
    GradientNoDot();
    ColorStopsNoDot();
    ColorNoDot();
    assert '.' !in a && '.' !in e && '.' !in f && '.' !in g;
    assert PrimaryRule == a + b + c + d + e + f + g;
  }

  lemma GradientNoDot()
    ensures '.' !in "    background: linear-gradient(135deg, "
  {
  }

  lemma ColorStopsNoDot()
    ensures '.' !in "#5e6ad2 0%, #7c3aed 100%);\n"
  {
  }

  lemma ColorNoDot()
    ensures '.' !in "    color: var(--color-text-primary);\n"
  {
  }

  lemma PrimaryHoverRuleFacts()
    ensures '.' !in PrimaryHoverRule && |PrimaryHoverRule| > 0 && PrimaryHoverRule[0] == ':'
  {
    var h, i, j, k := ":hover:not(:disabled) {\n", "    box-shadow: var(--shadow-md);\n", "    transform: translateY(-1px);\n", "}";
    assert '.' !in h && '.' !in i;
    assert '.' !in j && '.' !in k;
    assert PrimaryHoverRule == h + i + j + k;
  }

  /** `getTextInputsCSS()` (download-system.js:639-676): five rules for the
      same class. Two declarations hold decimals, `0.1` in the focus shadow
      and `0.6` in the disabled opacity. */
  const TextInputsCSS: string :=
    "." + InputClass + InputBaseRule +
    "." + InputClass + InputPlaceholderRule +
    "." + InputClass + InputHoverRule +
    "." + InputClass + InputFocusHead + "0.1" + InputFocusTail +
    "." + InputClass + InputDisabledHead + "0.6" + InputDisabledTail

  const InputClass: string := "linear-input"

  const InputBaseRule: string :=
    " {\n" + InputBoxLines + InputTypeLines + InputSurfaceLines + "}\n" + "\n"

  const InputBoxLines: string :=
    "    display: block;\n" +
    "    width: 100%;\n" +
    "    padding: var(--spacing-3) " + "var(--spacing-4);\n"

  const InputTypeLines: string :=
    "    font-size: " + "var(--text-sm);\n" +
    "    font-weight: " + "var(--font-regular);\n" +
    "    line-height: " + "var(--leading-normal);\n" +
    "    color: " + "var(--color-text-primary);\n"

  const InputSurfaceLines: string :=
    "    background-color: " + "var(--color-bg-secondary);\n" +
    "    border: 1px solid " + "var(--color-border);\n" +
    "    border-radius: " + "var(--radius-md);\n" +
    "    transition: all " + "var(--transition-fast);\n" +
    "    outline: none;\n" +
    "    font-family: " + "var(--font-sans);\n"

  const InputPlaceholderRule: string :=
    "::placeholder {\n" +
    "    color: " + "var(--color-text-tertiary);\n" +
    "}\n" +
    "\n"

  const InputHoverRule: string :=
    ":hover:not(:disabled) {\n" +
    "    border-color: " + "var(--color-border-hover);\n" +
    "}\n" +
    "\n"

  /** The focus rule up to the decimal alpha of its shadow colour. */
  const InputFocusHead: string :=
    ":focus:not(:disabled) {\n" +
    "    border-color: " + "var(--color-brand-primary);\n" +
    "    box-shadow: 0 0 0 3px " + "rgba(94, 106, 210, "

  const InputFocusTail: string :=
    ");\n" +
    "    background-color: " + "var(--color-bg-tertiary);\n" +
    "}\n" +
    "\n"

  /** The disabled rule up to its decimal opacity. */
  const InputDisabledHead: string :=
    ":disabled {\n" +
    "    background-color: " + "var(--color-bg-primary);\n" +
    "    color: " + "var(--color-text-disabled);\n" +
    "    cursor: not-allowed;\n" +
    "    opacity: "

  const InputDisabledTail: string :=
    ";\n" +
    "}"

  /** The text-input stylesheet names one class, yet the regex also reports
      the fractional digits of `0.1` and `0.6` as "classes", after it. */
  lemma TextInputsClasses()
    ensures ExtractCSSClasses(TextInputsCSS) == ["linear-input", "1", "6"]
  {
    InputRulesFacts();
    InputHeadsFacts();
    InputTailsFacts();
    var n := InputClass;
    TextInputsShape(n, InputBaseRule, InputPlaceholderRule, InputHoverRule,
      InputFocusHead, InputFocusTail, InputDisabledHead, InputDisabledTail);
    DedupInputMatches(n, "1", "6");
  }

  /** `[...new Set(...)]` of the text-input matches keeps the class and the
      two digit strings, in that order. */
  lemma DedupInputMatches(n: string, p: string, q: string)
    requires n != p && n != q && p != q
    ensures Dedup([n, n, n, n] + [p, n, q]) == [n, p, q]
  {
    FourThenThree(n, p, q);
    DedupAfterDigit(n, p);
    DedupSnocNew([n, n, n, n, p, n], q);
    assert [n, n, n, n, p, n] + [q] == [n, n, n, n, p, n, q];
  }

  /** The matches up to the second decimal deduplicate to the class and the
      first digit string. */
  lemma DedupAfterDigit(n: string, p: string)
    requires n != p
    ensures Dedup([n, n, n, n, p, n]) == [n, p]
  {
    DedupRepeats(n);
    DedupSnocNew([n, n, n, n], p);
    assert [n, n, n, n] + [p] == [n, n, n, n, p];
    DedupSnocSeen([n, n, n, n, p], n);
    assert [n, n, n, n, p] + [n] == [n, n, n, n, p, n];
  }

  /** Four copies of one class deduplicate to one. */
  lemma DedupRepeats(n: string)
    ensures Dedup([n, n, n, n]) == [n]
  {
    var a1 := [n];
    assert Dedup(a1) == [n] by { DedupSnocNew([], n); assert [] + [n] == a1; }
    DedupSnocSeen(a1, n);
    DedupSnocSeen(a1 + [n], n);
    DedupSnocSeen(a1 + [n] + [n], n);
    assert a1 + [n] + [n] + [n] == [n, n, n, n];
  }

  /** A value seen before adds nothing to the deduplicated list. */
  lemma DedupSnocSeen(xs: seq<string>, x: string)
    requires x in xs
    ensures Dedup(xs + [x]) == Dedup(xs)
  {
    assert (xs + [x])[..|xs|] == xs;
  }

  /** A new value is added at the end of the deduplicated list. */
  lemma DedupSnocNew(xs: seq<string>, x: string)
    requires x !in xs
    ensures Dedup(xs + [x]) == Dedup(xs) + [x]
  {
    assert (xs + [x])[..|xs|] == xs;
  }

  /** The class matches of a stylesheet of this shape: one class before each
      of five rules, and a decimal inside the last two. */
  lemma TextInputsShape(n: string, r1: string, r2: string, r3: string,
                        f: string, ft: string, d: string, dt: string)
    requires n != [] && forall c :: c in n ==> IsClassChar(c)
    requires RuleBody(r1) && RuleBody(r2) && RuleBody(r3) && RuleBody(f) && RuleBody(d)
    requires RuleBody(ft) && '.' !in dt && dt != [] && !IsClassChar(dt[0])
    ensures ClassMatches(
      "." + n + r1 + "." + n + r2 + "." + n + r3 +
      "." + n + f + "0.1" + ft + "." + n + d + "0.6" + dt) == [n, n, n, n] + ["1", n, "6"]
  {
    var front := "." + n + r1 + "." + n + r2 + "." + n + r3 + "." + n + f;
    FourRules(n, r1, r2, r3, f);
    TwoDecimals(front, [n, n, n, n], n, ft, d, dt);
  }

  lemma FourThenThree(n: string, p: string, q: string)
    ensures [n, n, n, n] + [p, n, q] == [n, n, n, n, p, n, q]
  {
  }

  /** The four rules before the first decimal: one match each. */
  lemma FourRules(n: string, r1: string, r2: string, r3: string, f: string)
    requires n != [] && forall c :: c in n ==> IsClassChar(c)
    requires RuleBody(r1) && RuleBody(r2) && RuleBody(r3) && RuleBody(f)
    ensures var s := "." + n + r1 + "." + n + r2 + "." + n + r3 + "." + n + f;
      s[|s| - 1] == f[|f| - 1] && ClassMatches(s) == [n, n, n, n]
  {
    OneRuleMatches(n, r1);
    var s2 := AppendRule("." + n + r1, [n], n, r2);
    var s3 := AppendRule(s2, [n] + [n], n, r3);
    var s4 := AppendRule(s3, [n] + [n] + [n], n, f);
    assert [n] + [n] + [n] + [n] == [n, n, n, n];
  }

  /** The rest of the stylesheet: `0.1`, one more rule, then `0.6`. */
  lemma TwoDecimals(x: string, mx: seq<string>, n: string, ft: string, d: string, dt: string)
    requires x != [] && x[|x| - 1] != '.' && !IsClassChar(x[|x| - 1]) && ClassMatches(x) == mx
    requires n != [] && forall c :: c in n ==> IsClassChar(c)
    requires RuleBody(ft) && RuleBody(d) && '.' !in dt && dt != [] && !IsClassChar(dt[0])
    ensures ClassMatches(x + "0.1" + ft + "." + n + d + "0.6" + dt) == mx + ["1", n, "6"]
  {
    assert ['1'] == "1" && ['6'] == "6";
    var s5 := AppendDecimal(x, mx, "0.1", '1', ft);
    var s6 := AppendRule(s5, mx + ["1"], n, d);
    var s7 := AppendDecimal(s6, mx + ["1"] + [n], "0.6", '6', dt);
    assert mx + ["1"] + [n] + ["6"] == mx + ["1", n, "6"];
  }

  /** A dot-free rule text that starts and ends away from any class name. */
  predicate RuleBody(r: string)
  {
    r != [] && '.' !in r && !IsClassChar(r[0]) && !IsClassChar(r[|r| - 1])
  }

  /** Appending `.n` and a rule body adds exactly the match `n`. */
  lemma AppendRule(x: string, mx: seq<string>, n: string, r: string) returns (y: string)
    requires x != [] && x[|x| - 1] != '.' && !IsClassChar(x[|x| - 1]) && ClassMatches(x) == mx
    requires n != [] && forall c :: c in n ==> IsClassChar(c)
    requires RuleBody(r)
    ensures y == x + "." + n + r && y[|y| - 1] == r[|r| - 1]
    ensures ClassMatches(y) == mx + [n]
  {
    RuleAfter(x, n, r);
    RuleAssoc(x, n, r);
    y := x + "." + n + r;
  }

  lemma RuleAfter(x: string, n: string, r: string)
    requires x != [] && x[|x| - 1] != '.' && !IsClassChar(x[|x| - 1])
    requires n != [] && forall c :: c in n ==> IsClassChar(c)
    requires RuleBody(r)
    ensures ClassMatches(x + ("." + n + r)) == ClassMatches(x) + [n]
  {
    OneRuleMatches(n, r);
    ClassMatchesConcat(x, "." + n + r);
  }

  lemma RuleAssoc(x: string, n: string, r: string)
    ensures x + ("." + n + r) == x + "." + n + r
  {
  }

  /** Appending `0.<digit>` and a dot-free tail adds exactly the match of
      the digit. */
  lemma AppendDecimal(x: string, mx: seq<string>, num: string, digit: char, r: string) returns (y: string)
    requires x != [] && x[|x| - 1] != '.' && !IsClassChar(x[|x| - 1]) && ClassMatches(x) == mx
    requires '0' <= digit <= '9' && num == ['0', '.', digit]
    requires r != [] && '.' !in r && !IsClassChar(r[0])
    ensures y == x + num + r && y[|y| - 1] == r[|r| - 1]
    ensures ClassMatches(y) == mx + [[digit]]
  {
    var piece := num + r;
    DecimalMatches(digit, r);
    ClassMatchesConcat(x, piece);
    y := x + piece;
    assert y == x + num + r;
  }

  /** `0.<digit>` followed by a dot-free tail matches only the digit. */
  lemma DecimalMatches(digit: char, r: string)
    requires '0' <= digit <= '9'
    requires r != [] && '.' !in r && !IsClassChar(r[0])
    ensures ClassMatches(['0', '.', digit] + r) == [[digit]]
  {
    assert ['0', '.', digit] + r == "0" + ("." + [digit] + r);
    SkipsDotless("0", "." + [digit] + r);
    LeadingClass([digit], r);
    NoDotNoMatches(r);
  }

  lemma InputRulesFacts()
    ensures InputClass != [] && forall c :: c in InputClass ==> IsClassChar(c)
    ensures RuleBody(InputBaseRule) && RuleBody(InputPlaceholderRule) && RuleBody(InputHoverRule)
  {
    PunctuationNoDot();
    BoxLinesNoDot();
    TypeLinesNoDot();
    SurfaceLinesNoDot();
    PseudoSelectorsNoDot();
    PlaceholderColorNoDot();
    StateSelectorsNoDot();
    HoverBorderNoDot();
  }

  lemma InputHeadsFacts()
    ensures RuleBody(InputFocusHead) && RuleBody(InputDisabledHead)
  {
    FocusSelectorNoDot();
    FocusBorderNoDot();
    FocusShadowNoDot();
    PseudoSelectorsNoDot();
    DisabledSurfaceNoDot();
    DisabledColorNoDot();
    CursorOpacityNoDot();
  }

  lemma InputTailsFacts()
    ensures RuleBody(InputFocusTail)
    ensures '.' !in InputDisabledTail && InputDisabledTail != [] && !IsClassChar(InputDisabledTail[0])
  {
    PunctuationNoDot();
    FocusSurfaceNoDot();
  }

  lemma BoxLinesNoDot()
    ensures '.' !in InputBoxLines
  {
    DisplayWidthNoDot();
    PaddingNoDot();
  }

  lemma TypeLinesNoDot()
    ensures '.' !in InputTypeLines
  {
    FontSizeNoDot();
    FontWeightNoDot();
    LineHeightNoDot();
    TextColorNoDot();
  }

  lemma SurfaceLinesNoDot()
    ensures '.' !in InputSurfaceLines
  {
    SurfaceNoDot();
    BorderNoDot();
    RadiusNoDot();
    TransitionNoDot();
    OutlineNoDot();
    FontFamilyNoDot();
  }

  // One lemma per line or two: the solver's cost of a literal's membership
  // facts grows faster than its length.

  lemma DisplayWidthNoDot()
    ensures '.' !in "    display: block;\n" + "    width: 100%;\n"
  {
  }

  lemma PaddingNoDot()
    ensures '.' !in "    padding: var(--spacing-3) " + "var(--spacing-4);\n"
  {
  }

  lemma FontSizeNoDot()
    ensures '.' !in "    font-size: " + "var(--text-sm);\n"
  {
  }

  lemma FontWeightNoDot()
    ensures '.' !in "    font-weight: " + "var(--font-regular);\n"
  {
  }

  lemma LineHeightNoDot()
    ensures '.' !in "    line-height: " + "var(--leading-normal);\n"
  {
  }

  lemma TextColorNoDot()
    ensures '.' !in "    color: " + "var(--color-text-primary);\n"
  {
  }

  lemma SurfaceNoDot()
    ensures '.' !in "    background-color: " + "var(--color-bg-secondary);\n"
  {
  }

  lemma BorderNoDot()
    ensures '.' !in "    border: 1px solid " + "var(--color-border);\n"
  {
  }

  lemma RadiusNoDot()
    ensures '.' !in "    border-radius: " + "var(--radius-md);\n"
  {
  }

  lemma TransitionNoDot()
    ensures '.' !in "    transition: all " + "var(--transition-fast);\n"
  {
  }

  lemma OutlineNoDot()
    ensures '.' !in "    outline: none;\n"
  {
  }

  lemma FontFamilyNoDot()
    ensures '.' !in "    font-family: " + "var(--font-sans);\n"
  {
  }

  lemma PlaceholderColorNoDot()
    ensures '.' !in "    color: " + "var(--color-text-tertiary);\n"
  {
  }

  lemma HoverBorderNoDot()
    ensures '.' !in "    border-color: " + "var(--color-border-hover);\n"
  {
  }

  lemma FocusBorderNoDot()
    ensures '.' !in "    border-color: " + "var(--color-brand-primary);\n"
  {
  }

  lemma FocusShadowNoDot()
    ensures '.' !in "    box-shadow: 0 0 0 3px " + "rgba(94, 106, 210, "
  {
  }

  lemma FocusSurfaceNoDot()
    ensures '.' !in "    background-color: " + "var(--color-bg-tertiary);\n"
  {
  }

  lemma DisabledSurfaceNoDot()
    ensures '.' !in "    background-color: " + "var(--color-bg-primary);\n"
  {
  }

  lemma DisabledColorNoDot()
    ensures '.' !in "    color: " + "var(--color-text-disabled);\n"
  {
  }

  lemma CursorOpacityNoDot()
    ensures '.' !in "    cursor: not-allowed;\n" + "    opacity: "
  {
  }

  lemma PseudoSelectorsNoDot()
    ensures '.' !in "::placeholder {\n" && '.' !in ":disabled {\n"
  {
  }

  lemma StateSelectorsNoDot()
    ensures '.' !in ":hover:not(:disabled) {\n"
  {
  }

  lemma FocusSelectorNoDot()
    ensures '.' !in ":focus:not(:disabled) {\n"
  {
  }

  lemma PunctuationNoDot()
    ensures '.' !in " {\n" && '.' !in "}\n" && '.' !in "\n" && '.' !in ");\n" && '.' !in ";\n" && '.' !in "}"
  {
  }
}
