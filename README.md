# Occler component library — a Dafny model

This project models three small pieces of logic in the Occler "Linear
Design System" front end. Each is stripped of its DOM and browser plumbing.

- **The component archive builder** (`ComponentDownloader`, download-system.js):
  - a catalog of 13 components;
  - the single-component and all-components ZIP archives, their folder layout and their file names;
  - the README, usage-guide and standalone-HTML templates;
  - the regex scanner `extractCSSClasses`.

  The archive is a map from path to content plus a set of folder entries.
  A `Zip` class updates it one `file`/`folder` call at a time, and a later
  write to the same path replaces the earlier one.
- **The component factory and string helpers** (js/components.js):
  - the name-to-class registry with its not-found error;
  - the `Button` class-name rule;
  - the `StoreInfoCard` and `MapMarker` status badges;
  - `OcclerHelpers.formatPhoneNumber` and `truncateAddress`.
- **The mobile UI state machines** (js/mobile-components.js):
  - `BottomNavigation` and `MobileTabBar`, where `setActive` leaves at most one active link;
  - `RegionSelector`, with its single selection and the next button;
  - `MobileStoreCard`, with the favourite toggle and the status label;
  - the `MultiStepFilter` wizard: per-step validation and next/back transitions.

  Each is a class whose fields are the state the JavaScript keeps. Arrays
  hold the `active` marks and the progress bar.

JavaScript `null`/`undefined` strings are `Option<string>`. JavaScript
truthiness of a string is `Truthy`: present and non-empty. Strings are
sequences of characters.

The modules are:
- `Wrappers`: Option and Result.
- `Text`: joining and splitting lines.
- `CssClasses`.
- `Catalog`.
- `Documents`: the templates.
- `Archive`.
- `Factory`.
- `Helpers`.
- `Components`.
- `Navigation`.
- `Regions`.
- `StoreCard`.
- `StepFilter`.

## Model

| member | source | states |
|---|---|---|
| CssClasses.ExtractedClassesExact | download-system.js:466-469 | The result has no duplicates. A string is in it exactly when it is the maximal run of word or hyphen characters right after some `.` of the input. |
| CssClasses.ClassMatchesSound | download-system.js:468 | Every regex match is a maximal `[\w-]+` run that starts right after a `.`. |
| CssClasses.ClassMatchesComplete | download-system.js:468 | Every `.` followed by a word or hyphen character yields a match. |
| CssClasses.ClassMatchesWellFormed | download-system.js:468 | Every extracted name is non-empty and made only of word and hyphen characters. |
| CssClasses.Dedup | download-system.js:468 | `[...new Set(xs)]` has no duplicates and the same members as `xs`. |
| CssClasses.DedupFirstSeenOrder | download-system.js:468 | The deduplicated names keep the order of their first occurrence. |
| CssClasses.NoDotNoMatches | download-system.js:467 | A text without `.` yields no classes (`match` gives `null`, and `|| []` applies). |
| CssClasses.ClassMatchesConcat | download-system.js:467 | Scanning two texts joined where no run crosses the seam gives the matches of each, in order. |
| CssClasses.DecimalReadAsClass | download-system.js:466-469 | A decimal such as `0.6` in a declaration is reported as the class `6`. |
| Catalog.Lookup | download-system.js:122-126 | The lookup is `None` exactly when no catalog entry has the id. Otherwise it is that entry's record. |
| Catalog.LookupFindsEntry | download-system.js:5-117 | Every entry of a catalog with unique ids is found by its id. |
| Catalog.BuildCatalog | download-system.js:4-117 | Construction fails, naming a getter, exactly when some entry's HTML or CSS getter is missing. Otherwise it gives one entry per source, carrying the source's id, name, category and shared files, the getter outputs, and `<id>-preview.png`. |
| Catalog.FailsAtFirstMissing | download-system.js:4-117 | The reported getter is the first missing one in catalog order. |
| Catalog.ConstructorAsWritten | download-system.js:76-85 | With only the getters the class declares, construction fails at `getBasicCardsHTML`. |
| Catalog.ConstructorCorrected | download-system.js:5-117 | With every getter defined, the catalog has 13 entries with distinct ids, each in one of the four categories. |
| Catalog.BuildsEverySource | download-system.js:4-117 | A successful construction keeps every source entry, in order. |
| Catalog.SourceIdsDistinct | download-system.js:5-117 | The 13 catalog ids are pairwise distinct. |
| Catalog.SourceCategoriesListed | download-system.js:5-117 | Every catalog entry's category is one of buttons, inputs, cards and navigation. |
| Catalog.PrimaryButtonsClasses | download-system.js:527-537 | The primary-buttons stylesheet yields exactly `["linear-btn-primary"]`. |
| Catalog.TextInputsClasses | download-system.js:639-676 | The text-input stylesheet yields exactly `["linear-input", "1", "6"]`: its one class, then the fractional digits of `0.1` (focus shadow) and `0.6` (disabled opacity), which the regex reads as class names. |
| Documents.StandaloneHTMLLayout | download-system.js:201-253 | The page starts with `<!DOCTYPE html>` and ends with `</html>`. It contains, in this order: the title naming the component, the theme CSS, the component CSS, then the markup inside `demo-section`. |
| Documents.PageLayout | download-system.js:201-253 | The same order holds for any fixed template text around the four interpolations. |
| Documents.ReadmeLines | download-system.js:255-294 | The README's lines are, in order: the fixed head with the markup, one `` - `.<cls>` `` line per extracted class, the files heading, one `- <file>` line per required file, and the fixed tail. |
| Documents.ReadmeTitle | download-system.js:256 | The README's first line is `# <name>`. |
| Documents.ExtractedBulletsAreLines | download-system.js:276 | There is one bullet line per extracted class, in extraction order. |
| Documents.UsageGuideOpening | download-system.js:858-862 | The usage guide opens with `# <name> 사용 가이드`, a blank line and `## 개요`. The fourth line starts with the name. |
| Archive.Zip.File | download-system.js:132-145 | A `file` write sets that path's content and replaces any earlier one. |
| Archive.Zip.Folder | download-system.js:129 | `folder(name)` records the `name/` entry and returns that prefix for later writes. |
| Archive.DownloadComponent | download-system.js:121-159 | An unknown id fails with `Component <id> not found` and builds nothing. A known id yields its single archive, the file name `occler-<id>-component.zip`, and a notice naming the component. |
| Archive.SingleArchiveLayout | download-system.js:128-145 | The single archive's files are exactly the six paths under `<name>/`. Its only folder entry is `<name>/`. |
| Archive.SingleArchiveSize | download-system.js:128-145 | For an ordinary id, the single archive holds exactly six files. |
| Archive.SingleArchiveContents | download-system.js:131-145 | Each of the six files holds its document: the page, the CSS, the README, the usage guide and the two shared stylesheets. |
| Archive.SingleStylesheetShadowed | download-system.js:135-145 | For the id `linear-theme` or `linear-components`, the shared stylesheet, written later, replaces the component's CSS. |
| Archive.DownloadAllComponents | download-system.js:161-196 | Writing step by step yields exactly the complete archive, with the constant file name `occler-linear-design-system-complete.zip` and a fixed notice. |
| Archive.CompleteFiles | download-system.js:165-186 | The complete archive's files are exactly the five root files plus the three files of every entry in one of the four categories. |
| Archive.CompleteFolders | download-system.js:169-175 | The complete archive's folder entries are exactly the four category folders and one folder per entry of those categories. |
| Archive.CompleteRoot | download-system.js:163-186 | The root holds exactly `linear-theme.css`, `linear-components.css`, `README.md`, `design-tokens.css` and `usage-examples.html`. |
| Archive.CompleteRootContents | download-system.js:165-186 | The root files hold the theme and component stylesheets, the main README (not any component's README), the design tokens and the usage examples. |
| Archive.CompleteTopFolders | download-system.js:169-172 | The top-level folders are exactly `buttons/`, `inputs/`, `cards/` and `navigation/`, whatever the catalog holds. |
| Archive.CompleteEntry | download-system.js:169-181 | Each entry of the four categories has the folder `<category>/<name>/`, holding its own page, stylesheet and README. |
| Archive.CompleteEntryFolderOnly | download-system.js:175-180 | An entry's folder holds only its three files. |
| Archive.CompleteHasNoUsageGuide | download-system.js:161-196 | No path of the complete archive ends in `usage-guide.md`. |
| Archive.EntryWriteUnique | download-system.js:169-181 | Each entry file is written exactly once, by its own entry. |
| Archive.Initialize | download-system.js:904-913 | The page has a downloader exactly when JSZip loads and the constructor does not throw. That downloader is the catalog the constructor builds, and its ids are unique. |
| Archive.InitializeAsWritten | download-system.js:904-913 | With the getters the class declares, the page never gets a downloader. |
| Archive.GlobalDownloadComponent | download-system.js:916-922 | Without a downloader, the call reports `Component Downloader not initialized`. With one, an unknown id fails with `Component <id> not found`, and a known id yields exactly that component's single archive, its file name and its notice. |
| Archive.GlobalDownloadAll | download-system.js:924-931 | Without a downloader, the call reports `Component Downloader not initialized`. With one, it yields the complete archive. |
| Factory.ComponentFactory.constructor | js/components.js:5-7 | A new factory has no registrations. |
| Factory.ComponentFactory.Register | js/components.js:9-11 | `register(name, C)` binds `name` to `C` and leaves every other binding as it was. |
| Factory.ComponentFactory.Create | js/components.js:13-19 | Creation fails exactly for an unregistered name, with `Component <name> not found`. Otherwise it constructs the registered class with the given options. |
| Factory.RegisterAllResolves | js/components.js:9-11 | After a run of registrations, a name resolves exactly when it was registered before or during the run, to its last binding. Names not in the run keep their binding. |
| Factory.LibraryFactory | js/components.js:923-926 | The shared factory binds exactly the eight library names to their classes. |
| Helpers.Digits | js/components.js:966 | `replace(/\D/g, '')` keeps only digits and is no longer than its input. |
| Helpers.FormatPhoneNumber | js/components.js:964-973 | A falsy input gives `""`. With 10 or 11 digits the result is those digits with two hyphens, at index 3 and five from the end. Any other digit count returns the input unchanged. |
| Helpers.FormatKeepsDigits | js/components.js:964-973 | Formatting never changes the digits of a phone number. |
| Helpers.FormatElevenDigits | js/components.js:967-968 | Eleven digits are hyphenated 3-4-4. |
| Helpers.FormatIdempotent | js/components.js:964-973 | Formatting a formatted number changes nothing. |
| Helpers.TruncateAddress | js/components.js:976-979 | A falsy address or one no longer than `maxLength` comes back unchanged. A longer one becomes its first `maxLength` characters followed by `...`. |
| Helpers.TruncateLength | js/components.js:976-979 | With a non-negative limit, a truncated address is exactly `maxLength + 3` long, so one at most three characters over the limit comes out longer than it went in. |
| Helpers.TruncateIdempotent | js/components.js:976-979 | Truncating a truncated address to the same limit changes nothing. |
| Components.AddToken | js/components.js:59 | `classList.add` gives a list that contains the token and otherwise has the same members. |
| Components.ButtonTokensFacts | js/components.js:56-60 | A button always has `btn` and `btn-<variant>`. It has `btn-<size>` exactly when the size is not `md` or equals the variant, and it never has a class twice. |
| Components.DefaultButtonClass | js/components.js:44-56 | A button with the default options renders as `btn btn-primary`. |
| Components.StoreBadge | js/components.js:618-624 | `closed` gives the error badge and `pending` the warning badge. Every other status, unknown ones included, gives the operating badge. |
| Components.MarkerBadge | js/components.js:835-836 | `active` gives the success badge and `closed` the error badge. Every other status gives the warning badge. |
| Components.BadgesAgree | js/components.js:835-836 | The card and the marker show the same badge exactly for `active`, `closed` and `pending`. |
| Components.StoreCardMarked | js/components.js:594-596 | The card carries `store-<status>` exactly when the status is not `active`. |
| Components.UnknownStatusMixed | js/components.js:594-596 | An undocumented status is styled as a non-operating card, yet its badge says it is operating. |
| Navigation.DefaultIcon | js/mobile-components.js:76-84 | Index 1, 2 and 3 give their own icons. Every other index gives the first icon. |
| Navigation.RenderNavItem | js/mobile-components.js:19-59 | The link is `href` or `#`. The icon is the item's own or the default for its position. The badge is present exactly when the item has a non-empty one. |
| Navigation.MarksOnlyCount | js/mobile-components.js:64-74 | A bar marked only at `index` has exactly one active link when the index is in range, and none otherwise. |
| Navigation.MarkOnly | js/mobile-components.js:66-72 | After the `forEach`, exactly the link at `index` carries `active`. |
| Navigation.BottomNavigation.Render | js/mobile-components.js:15-62 | Rendering gives one link per item and marks only the link at `activeIndex`. |
| Navigation.BottomNavigation.SetActive | js/mobile-components.js:64-74 | `activeIndex` becomes `index`. Exactly one link is active when the index is in range, otherwise none. |
| Navigation.BottomNavigation.Click | js/mobile-components.js:49-55 | A click activates its own link, and only that one, and reports the item and its index when a callback is given. |
| Navigation.MobileTabBar.Render | js/mobile-components.js:331-358 | Rendering gives one tab link per tab and marks only the link at `activeIndex`. |
| Navigation.MobileTabBar.SetActive | js/mobile-components.js:360-371 | `activeIndex` becomes `index`. Exactly one tab is active when the index is in range, otherwise none. |
| Navigation.MobileTabBar.Click | js/mobile-components.js:345-351 | A click activates its own tab, and only that one, and reports it when a callback is given. |
| Regions.FirstIndex | js/mobile-components.js:661 | `find` by region gives the first position holding the id, or none when no button has it. |
| Regions.CategoryButton.SetSelected | js/mobile-components.js:562-571 | `setSelected` sets the button's selected flag. |
| Regions.DeselectAll | js/mobile-components.js:658 | Every button of the grid ends up not selected. |
| Regions.SelectFirst | js/mobile-components.js:661-664 | Only the first button whose region is the id ends up selected. |
| Regions.RegionSelector.HandleRegionSelect | js/mobile-components.js:656-678 | Afterwards at most one button is selected: the first one with the region. `selectedRegion` is the id, and a rendered next button is enabled. |
| Regions.RegionSelector.HandleNext | js/mobile-components.js:680-684 | The selector reports exactly when a region is selected and a callback is given, and it reports that region. |
| Regions.RegionSelector.Render | js/mobile-components.js:599-650 | Corrected: the grid holds exactly one fresh button per region, selected exactly when it is `selectedRegion`. |
| Regions.RegionSelector.RenderAsWritten | js/mobile-components.js:599-650 | As written: the new buttons are appended after the old ones, which stay in `categoryButtons`. |
| Regions.SelectionUnique | js/mobile-components.js:656-664 | Two selected buttons are the same button, and it carries the chosen region. |
| Regions.SelectionPresent | js/mobile-components.js:661-664 | When some button has the region, a selected button with that region exists. |
| Regions.StaleButtonSelected | js/mobile-components.js:599-664 | When stale buttons precede the shown ones, selecting a region marks none of the shown ones. |
| Regions.RerenderLosesSelection | js/mobile-components.js:599-678 | As written: after two renders and a selection, no button on screen is selected. |
| Regions.RerenderKeepsSelection | js/mobile-components.js:599-678 | Corrected: after two renders and a selection, exactly the on-screen button of the region is selected. |
| StoreCard.StatusText | js/mobile-components.js:858-865 | `operating`, `closed` and `vacant` give `영업중`, `폐업` and `빈점포`. Every other status gives `알 수 없음`. |
| StoreCard.StatusVocabularies | js/mobile-components.js:858-865 | The mobile and desktop labels agree for operating and closed stores. The desktop status `active` reads as unknown on the mobile card. |
| StoreCard.Heart | js/mobile-components.js:879 | The favourite button shows a red heart exactly for a favourite. |
| StoreCard.MobileStoreCard.Render | js/mobile-components.js:716-856 | Once rendered, the favourite button shows a red heart exactly for a favourite, and the status label shows `getStatusText` of the status. |
| StoreCard.MobileStoreCard.ToggleFavorite | js/mobile-components.js:877-895 | The flag flips and the button changes face. The card's id and the new flag are reported when a callback is given. |
| StoreCard.ToggleTwice | js/mobile-components.js:877-895 | Two toggles restore the flag and the button, and report both changes in order. |
| StepFilter.Apply | js/mobile-components.js:1206-1227 | Next advances by one only from a filled, non-final step. Back steps down to no lower than 0. Choices change only the data. The position stays within the steps. |
| StepFilter.RunPassesOnlyValidSteps | js/mobile-components.js:1186-1218 | No sequence of events moves the wizard past a step that is not filled in. |
| StepFilter.DefaultCompletionHasChoices | js/mobile-components.js:1186-1218 | With the default steps, completion reports data naming a region, a main category and a sub-category. |
| StepFilter.UnknownStepBlocks | js/mobile-components.js:1186-1207 | A step with an unknown id never lets the wizard move forward or complete. |
| StepFilter.ChoiceKeepsValid | js/mobile-components.js:1099-1104 | A non-empty choice never makes a filled step unfilled. |
| StepFilter.MarkFor | js/mobile-components.js:1164-1171 | A step is current exactly at the position and completed exactly before it. |
| StepFilter.MultiStepFilter.UpdateProgressBar | js/mobile-components.js:1160-1179 | Every progress step and connector is re-marked for the current position. |
| StepFilter.NextCaption | js/mobile-components.js:1181-1184 | The next button reads `검색하기` exactly on the last step, and `다음` on every other step. |
| StepFilter.MultiStepFilter.RenderCurrentStep | js/mobile-components.js:1021-1041 | Before `render` nothing changes. Afterwards every progress step is re-marked for the position, the back button is disabled exactly at step 0, and the caption is `NextCaption`. The position, the choices and the next button's disabled flag are unchanged. |
| StepFilter.MultiStepFilter.Render | js/mobile-components.js:931-1040 | The progress bar, the back button and the caption show the position. The next button starts enabled. |
| StepFilter.MultiStepFilter.ValidateCurrentStep | js/mobile-components.js:1186-1204 | The step is valid exactly when it is filled in: region, both categories, or always for conditions. The next button is disabled exactly when it is not valid. |
| StepFilter.MultiStepFilter.GoNext | js/mobile-components.js:1206-1218 | The new position and data are `Apply(Next)`. The data is reported exactly on a valid final step with a callback. |
| StepFilter.MultiStepFilter.GoBack | js/mobile-components.js:1220-1227 | The new position is `Apply(Back)`. `onBack` is called exactly on the first step when one is given. Before `render` it only moves the position, since `renderCurrentStep` returns early. |
| StepFilter.MultiStepFilter.ChooseRegion | js/mobile-components.js:1052-1057 | The region is recorded and the step revalidated. |
| StepFilter.MultiStepFilter.ChooseCategory | js/mobile-components.js:1099-1104 | The main and sub-category are recorded and the step revalidated. |

## Left out

- **DOM and browser behaviour**:
  - element creation, `innerHTML` and styling;
  - event listeners, animations and timers;
  - `scrollIntoView`;
  - `navigator.vibrate`.

  Only the state the components keep is modelled: active marks, selected flags, step counter, captions and disabled flags.
- **Archive delivery**:
  - JSZip `generateAsync` and the compression itself;
  - `Blob`, `URL.createObjectURL` and the anchor click;
  - `showDownloadNotification`;
  - the CDN loader `loadJSZip`.

  These are library and browser calls. Whether JSZip loaded is a parameter of `Archive.Initialize`, and the notice is a value of the download result.
- **Literal document bodies** are opaque values, not their text:
  - the design-token CSS;
  - the main README and the usage examples;
  - the per-component markup and stylesheets.

  The exceptions are four stylesheets whose text the model holds:
  - the shared theme and component stylesheets, whose placeholder text `Documents.ThemeCSS` and `Documents.ComponentsCSS` hold, and which the page template splices in;
  - the primary-buttons and text-input stylesheets, whose text `Catalog.PrimaryButtonsCSS` and `Catalog.TextInputsCSS` hold, and which the class-extraction lemmas use.

  The archive holds documents as records of which template produced them, not as rendered text. `Archive.Render` relates the two.
- **Floating-point code** is left out: `calculateDistance`, `formatPrice`, the `BottomSheet` drag maths and `StatsCard` number formatting.
- **Component rendering** is left out for `Input`, `Card`, `Modal`, `Toast`, `SearchFilter`, `ActionSheet`, `FloatingActionButton`, `MobileSearchBar`, `BottomSheet` and `StatsCard`. This is presentation code outside the modelled rules.
- The test suite, the mobile demo wiring and the command-line AI helpers are not part of this model.
- Archive.CompleteEntry, Archive.CompleteEntryFolderOnly and Archive.EntryWriteUnique assume that component names and ids contain no `/` and that no two entries share a folder. Without that, paths of different entries could coincide. This holds for the 13 catalog entries.
- Archive.Zip.Folder records only the `name/` entry. When `name` contains `/`, JSZip also creates an entry for each parent folder, which the model leaves out. No catalog name contains `/`.
- Archive.SingleArchiveLayout states that `<name>/` is the only folder entry. Through Archive.Zip.Folder, this holds only for names without `/`, as all 13 catalog names are.
- Archive.SingleArchiveSize and Archive.SingleArchiveContents are stated for ids other than `linear-theme` and `linear-components`. For those two ids, Archive.SingleStylesheetShadowed states what happens instead.
- JavaScript details are not modelled:
  - the difference between `null` and `undefined`;
  - string lengths in UTF-16 code units, not characters;
  - component ids, statuses and factory names that collide with `Object.prototype` keys (`constructor`, `toString`, `__proto__`). For such an id, `this.components[componentId]` is truthy, so the source logs no `Component <id> not found` and later throws a `TypeError` in `extractCSSClasses`. Catalog.Lookup, Archive.DownloadComponent and Archive.GlobalDownloadComponent report `Component <id> not found` for these ids instead.
- Components.ButtonTokens treats a variant or size containing spaces as one token. For the variant, assigning `className` would split it into several tokens. For the size, `classList.add` throws on whitespace, and the model does not capture that error.
- Navigation.BottomNavigation.SetActive, Navigation.MobileTabBar.SetActive, StoreCard.MobileStoreCard.ToggleFavorite, StepFilter.MultiStepFilter.ValidateCurrentStep, StepFilter.MultiStepFilter.GoNext, StepFilter.MultiStepFilter.ChooseRegion and StepFilter.MultiStepFilter.ChooseCategory require the component to be rendered. Before `render` the element or button they touch is missing, and the source throws a `TypeError`, which the model does not capture. Their only callers are event handlers on elements that `render` creates.
- StepFilter.MultiStepFilter.constructor requires the starting step to be one of the steps. Any other start makes every later call throw.
- The category grid's `options.categories` map is left out. `ChooseCategory` takes any main and sub-category the grid could offer.
- `RegionSelector.getSelectedRegion` is a plain field read. The `selectedRegion` field stands for it.
- StepFilter.MultiStepFilter.RenderCurrentStep does not draw the step's own content (the region chips, the category grid or the conditions form that the `switch` renders). That content is DOM only; the choices it offers are the arguments of `ChooseRegion` and `ChooseCategory`.
- The `완료` ("done") caption written while building the buttons is left out, because `updateButtons` always overwrites it before it is shown.

## Findings

| source | as written | input that shows it | evidently intended | confidence | as-written member | corrected member |
|---|---|---|---|---|---|---|
| download-system.js:76-117 | The constructor calls `getBasicCardsHTML`, `getBasicCardsCSS` and eight more getters the class never defines (the HTML and CSS getters of the basic, glass, feature and metric cards and of the sidebar navigation). It throws a `TypeError`, the page's `catch` reports it as a JSZip load failure, and the page-level functions only report that the downloader is not initialized. | Any page load where JSZip loads | All 13 components are available for download | not executed | Catalog.ConstructorAsWritten, Archive.InitializeAsWritten | Catalog.ConstructorCorrected |
| js/mobile-components.js:599-650 | `render()` pushes new buttons onto `categoryButtons` without clearing it. After a second render, `handleRegionSelect` selects the old, detached button, because `find` returns it first. | `render()` twice, then `handleRegionSelect('gwangan')` | The button on screen is selected | not executed | Regions.RegionSelector.RenderAsWritten, Regions.RerenderLosesSelection | Regions.RegionSelector.Render, Regions.RerenderKeepsSelection |
