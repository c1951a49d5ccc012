# Jelix locales tools, in Dafny

This project models the core of jelix/LocalesTools. The tool converts the
`.UTF-8.properties` locale files of Jelix modules to gettext catalogs and back.
The model covers two parts.

The configuration object `LocalesConfig` holds:

- the global settings read from `.jelixlocales.ini`: application path,
  project id, properties file header, main locale and translation layout;
- a memoised descriptor per module, built from the `[module:<name>]` section;
- the getters that derive a module's directories and the sorted list of its
  locale files.

The three converters are:

- `convert:properties:po`: builds `<po root>/<module>.po` for one locale. The
  reference strings come from the main-locale files. Each translation comes
  from the locale's files in the translation layout, or else from the
  locale's files inside the module.
- `convert:po:properties`: writes the locale's properties files back from
  that catalog. A blank translation falls back to the reference string. A
  file whose values all equal the reference is removed rather than written.
- `convert:properties:pot`: builds the untranslated template
  `<pot root>/<module>.pot`, with the keys of each file in `ksort` order.

All three commands join a property key to a catalog entry through the
message context `<module>~<file id>.<key>` (module `Identity`).

## Modules

The paths below are files in this project.

- `strings.dfy` (`Strings`): the PHP string functions the code relies on.
  These are suffix and prefix tests, `str_replace` for one needle, `trim`,
  and the `preg_split('/\s*,\s*/')` of an exclusion list.
- `sorting.dfy` (`Sorting`): byte-wise string order, plus `sort` and `ksort`.
  Both sorts are insertion sort by a string key, proved sorted and a
  permutation.
- `outcomes.dfy` (`Outcomes`): every exception the core throws is one
  `Error` value. `Result` and `Option` carry it.
- `catalog.dfy` (`Catalog`): a gettext catalog as an ordered sequence of
  entries. `Put` models `insert` followed by `addReference` and
  `setTranslation`. The file also holds the loop over files (`Concat`) and
  the header lists.
- `identity.dfy` (`Identity`): the file id and the message context.
- `files.dfy` (`Files`): the file system as three maps (directory listings,
  parsed properties files and catalogs), in a class whose methods update
  them.
- `config.dfy` (`Config`): `LocalesConfig.php`. Its pure specification
  functions are `InitialSettings`, `DescribeModule`, `TranslationPath` and
  `ModuleLocaleFiles`. The class `LocalesConfig` has the source's fields and
  methods, and its invariant `Valid` says that every cached descriptor is
  the one the current settings give.
- `to_po.dfy`, `to_properties.dfy`, `to_pot.dfy` (`ToPo`, `ToProperties`,
  `ToPot`): the three `execute` methods. Each is a method over a
  `FileSystem` and a fresh `LocalesConfig`. Each is proved equal to a pure
  function of the initial file system (`ForwardCatalog`, `BackwardOutcome`,
  `TemplateCatalog`).
- `agreement.dfy` (`Agreement`): how the converters relate, in three claims.
  - Forward then backward: each key gets its non-blank differing
    translation, or else its reference string.
  - A template converted back gives the reference file.
  - The template and the PO catalog carry the same (context, original) pairs.

## Model

| member | source | states |
|---|---|---|
| Strings.ReplaceAll | src/LocalesConfig.php:183-187 | `str_replace` of one needle leaves a string without the needle's first character unchanged |
| Strings.ReplaceAllSingle | src/LocalesConfig.php:178 | a single occurrence, between parts without the needle's first character, is the only thing replaced |
| Strings.ReplaceAllKeepsLoneMark | src/Command/ConvertPropertiesToPo.php:120 | in `a.b.UTF-8.properties` the inner dot survives and only the trailing suffix is replaced |
| Strings.ReplaceBothInTurn | src/LocalesConfig.php:183-187 | two placeholders sharing their first character are filled in turn, each exactly once |
| Strings.ReplaceAllJoin | src/LocalesConfig.php:183-187 | every occurrence is replaced: pieces free of the needle's first character, joined by the needle, come out joined by the replacement |
| Strings.TrimStart | src/Command/ConvertPoToProperties.php:115 | the result is a suffix of the input, starts with a non-strippable character, and what was removed is blank |
| Strings.TrimEnd | src/Command/ConvertPoToProperties.php:115 | the result is a prefix of the input, ends with a non-strippable character, and what was removed is blank |
| Strings.TrimEmptyIffBlank | src/Command/ConvertPoToProperties.php:115 | `trim($s) == ''` holds exactly when every character of `$s` is one that trim strips |
| Strings.Split | src/LocalesConfig.php:128 | at least one piece, and no piece contains the separator |
| Strings.JoinSplit | src/LocalesConfig.php:128 | joining the pieces with the separator gives the original string back |
| Strings.DropLeadingSpace | src/LocalesConfig.php:128 | the dropped prefix is whitespace, and the rest of the input does not start with whitespace |
| Strings.DropTrailingSpace | src/LocalesConfig.php:128 | the dropped suffix is whitespace, and the rest of the input does not end with whitespace |
| Strings.ListField | src/LocalesConfig.php:128 | the piece is `lead + field + trail`: `lead` and `trail` are whitespace, each is empty on a side without a comma, and the field does not start or end with whitespace on a side with one |
| Strings.ListFieldUnique | src/LocalesConfig.php:128 | any field that relates so to its piece is the one computed |
| Strings.SplitList | src/LocalesConfig.php:128 | one field per comma piece, none holding a comma, each its piece stripped of the whitespace next to its commas |
| Strings.SplitListField | src/LocalesConfig.php:128 | the i-th entry is exactly the i-th comma piece so stripped |
| Sorting.LexLeqTotal | src/LocalesConfig.php:210 | the string order is total |
| Sorting.LexLeqTransitive | src/LocalesConfig.php:210 | the string order is transitive |
| Sorting.LexLeqAntisymmetric | src/LocalesConfig.php:210 | the string order is antisymmetric |
| Sorting.LexLeqPrefix | src/Command/ConvertPropertiesToPot.php:92-94 | a common prefix does not change the order of two strings |
| Sorting.InsertByPermutes | src/LocalesConfig.php:210 | inserting an element adds exactly that element to the multiset |
| Sorting.SortBySorted | src/LocalesConfig.php:210 | the sort result is ordered by the key and is a permutation of its input |
| Sorting.KeySortIsSortBy | src/Command/ConvertPropertiesToPot.php:92 | `ksort` is the key sort on pairs |
| Sorting.KeySortSpec | src/Command/ConvertPropertiesToPot.php:92 | `ksort` orders the pairs by key and keeps every pair |
| Catalog.IndexOf | src/Command/ConvertPoToProperties.php:109 | the position of the first entry with the (context, original) pair, or -1 exactly when there is none |
| Catalog.Find | src/Command/ConvertPoToProperties.php:109-114 | a found entry is in the catalog and carries the requested pair |
| Catalog.FindNoneIff | src/Command/ConvertPoToProperties.php:110 | `find` fails exactly when no entry carries the pair |
| Catalog.FindUnique | src/Command/ConvertPoToProperties.php:109 | in a catalog without duplicate pairs, `find` returns the one entry with that pair |
| Catalog.AddReference | src/Command/ConvertPropertiesToPo.php:126 | a known reference changes nothing; a new one is appended after the earlier ones |
| Catalog.Put | src/Command/ConvertPropertiesToPo.php:124-135 | a new pair is appended with its context as only reference; an existing pair's first entry takes the translation and gains the reference in place, and no other entry changes |
| Catalog.PutFinds | src/Command/ConvertPropertiesToPo.php:125-135 | after the insertion the pair is found, with the set translation and its context among its references |
| Catalog.PutKeepsOtherEntries | src/Command/ConvertPropertiesToPo.php:125 | an insertion changes no entry with another pair |
| Catalog.PutKeepsUniquePairs | src/Command/ConvertPropertiesToPo.php:125 | an insertion never creates a second entry for a pair |
| Catalog.PutKeepsFound | src/Command/ConvertPropertiesToPo.php:125-126 | a pair found before an insertion is still found after it, with every reference it had |
| Catalog.InsertAllKeepsFound | src/Command/ConvertPropertiesToPo.php:123-136 | a pair found before a run of insertions is still found after it, with its references |
| Catalog.InsertAllFinds | src/Command/ConvertPropertiesToPo.php:123-136 | every inserted pair is found at the end of the run, with its own context among its references |
| Catalog.InsertAllKeepsUniquePairs | src/Command/ConvertPropertiesToPo.php:123-136 | a whole run of insertions keeps pairs unique |
| Catalog.InsertAllAppend | src/Command/ConvertPropertiesToPo.php:100-137 | inserting two runs in turn is inserting their concatenation |
| Catalog.InsertEach | src/Command/ConvertPropertiesToPo.php:123-136 | the inner loop's catalog is that of the insertions applied in order |
| Catalog.Concat | src/Command/ConvertPropertiesToPo.php:100-137 | the loop over files completes exactly when every file step succeeds |
| Catalog.ConcatFirstError | src/Command/ConvertPropertiesToPo.php:118 | a failing run stops with the error of its first failing file |
| Catalog.ConcatContains | src/Command/ConvertPropertiesToPo.php:100-137 | the insertions of every file are among those of the whole run |
| Catalog.InsertAllFresh | src/Command/ConvertPropertiesToPo.php:123-136 | insertions with distinct new pairs append one entry each, in insertion order |
| Catalog.PoHeaders | src/Command/ConvertPropertiesToPo.php:82-95 | the project line comes first, and both the language-team and the language lines name the locale |
| Catalog.PotHeaders | src/Command/ConvertPropertiesToPot.php:68-79 | the project line comes first, and no language line is present |
| Catalog.WithoutLanguage | src/Command/ConvertPropertiesToPot.php:71-79 | the filtered header list has no language line |
| Catalog.PotHeadersArePoHeadersWithoutLanguage | src/Command/ConvertPropertiesToPot.php:71-79 | the template headers are the PO headers with the two language lines dropped |
| Identity.ContextKey | src/Command/ConvertPropertiesToPo.php:120-124 | the context starts with `<module>~` and ends with `.<key>` |
| Identity.ContextKeyInjective | src/Command/ConvertPoToProperties.php:103-108 | within one module and file, the context determines the key |
| Identity.FileIdOfPlainName | src/Command/ConvertPropertiesToPo.php:120 | the id of `name.UTF-8.properties` is `name` |
| Identity.FileIdOfDottedName | src/Command/ConvertPropertiesToPo.php:120 | the id of `a.b.UTF-8.properties` is `a.b` |
| Identity.ContextKeysCollideAcrossFiles | src/Command/ConvertPropertiesToPo.php:120-124 | two different files of one module can produce the same context |
| Files.Lookup | src/Command/ConvertPropertiesToPo.php:127-129 | a found value belongs to the key, and null exactly when the key is absent |
| Files.LookupUnique | src/Command/ConvertPropertiesToPo.php:127 | in a file without repeated keys each key looks up its own value |
| Files.WithDirectory | src/Command/ConvertPropertiesToPo.php:141 | directory creation adds the path and keeps every existing listing |
| Files.FileSystem.constructor | src/Command/ConvertPropertiesToPo.php:105-118 | the file system starts with the given listings, properties files and catalogs |
| Files.FileSystem.CreateDirectory | src/Command/ConvertPoToProperties.php:89-91 | only the directory listings change, as `WithDirectory` says |
| Files.FileSystem.WriteProperties | src/Command/ConvertPoToProperties.php:124-134 | the file at the path becomes the given pairs with the given writer options; nothing else changes |
| Files.FileSystem.Unlink | src/Command/ConvertPoToProperties.php:135-136 | the file at the path is removed; nothing else changes |
| Files.FileSystem.WriteCatalog | src/Command/ConvertPropertiesToPo.php:145 | the catalog at the path becomes the given catalog; nothing else changes |
| Config.Setting | src/LocalesConfig.php:45-58 | a set, non-empty value wins; otherwise the fallback |
| Config.DefaultsWithoutOverrides | src/LocalesConfig.php:14-20 | an INI file that sets nothing gives the INI directory, `My Project`, no header, `en_US` and `@module` |
| Config.OverridesTakeIniValues | src/LocalesConfig.php:39-59 | the application path (normalised), project id, header, main locale and layout take their INI value when it is set and not empty, otherwise their default |
| Config.CommandSettings | src/Command/ConvertPropertiesToPo.php:65-68 | a truthy `--properties-path` replaces the layout and nothing else; a falsy one changes nothing |
| Config.NormalizeExcluded | src/LocalesConfig.php:129-135 | the name ends with the suffix afterwards; the suffix is appended exactly when it was missing |
| Config.NormalizeExcludedIdempotent | src/LocalesConfig.php:129-135 | normalising an excluded name twice is normalising it once |
| Config.ExclusionList | src/LocalesConfig.php:125-136 | an empty or missing list excludes nothing; otherwise one name per field, each ending with the suffix |
| Config.ExclusionListNames | src/LocalesConfig.php:128-135 | the i-th excluded name is the i-th field, normalised |
| Config.DescribeModule | src/LocalesConfig.php:107-138 | unknown module and missing path fail in that order; otherwise the path is normalised against the application path and the locale and layout fall back to the global ones |
| Config.OriginalTranslationPath | src/LocalesConfig.php:150-154 | the directory lies under `<module path>locales/` and ends with `<locale>/` |
| Config.OriginalTranslationPathInjective | src/LocalesConfig.php:150-154 | two locales share a module directory only when they are the same |
| Config.ParseLayout | src/LocalesConfig.php:167-181 | each token is matched by exact equality, in the source's order, before the `@app:` prefix |
| Config.PerModuleIsOriginalPath | src/LocalesConfig.php:167-168 | with `@module` and no colon, the translation directory is the module's own locale directory |
| Config.FillLocaleThenModule | src/LocalesConfig.php:183-187 | a pattern with one `:locale` before one `:module` gets the locale and the module name in place |
| Config.AppLocalesPath | src/LocalesConfig.php:171-172 | with `@app-locales` the directory is `<app>app/locales/<locale>/<module>/` |
| Config.PlaceholderOrder | src/LocalesConfig.php:183-187 | `:locale` is filled first, so a `:module` that a locale introduces is filled as well |
| Config.AppRelativePath | src/LocalesConfig.php:177-187 | with `@app:<rest>` the directory is the application path followed by `<rest>` with its placeholders filled |
| Config.CatalogFile | src/Command/ConvertPropertiesToPo.php:139-142 | a catalog path starts with the normalised root and ends with the catalog's file name |
| Config.FilterEntries | src/LocalesConfig.php:199-208 | a listing entry is kept exactly when it ends with the suffix and is not excluded |
| Config.LocaleFilesSpec | src/LocalesConfig.php:199-212 | the locale files are sorted, a permutation of the kept entries, and exactly the kept entries |
| Config.ExcludedNeverListed | src/LocalesConfig.php:125-208 | a name in `excludePropertiesFiles`, with or without the suffix and with whitespace next to its commas, is never a locale file |
| Config.CollectLocaleFiles | src/LocalesConfig.php:199-212 | the `readdir` loop and `sort` give the sorted kept entries |
| Config.ModuleLocaleFiles | src/LocalesConfig.php:191-212 | fails exactly when the main-locale directory of the module is missing, otherwise lists its sorted kept entries |
| Config.MainPathIgnoresModuleLocale | src/LocalesConfig.php:156-160 | when a module names its own main locale, the main directory still uses the global one |
| Config.LocalesConfig.constructor | src/LocalesConfig.php:30-68 | the settings are the INI-derived ones and the cache is empty |
| Config.LocalesConfig.SetMainLocale | src/LocalesConfig.php:70-74 | only the main locale changes, and the cache is cleared |
| Config.LocalesConfig.SetProjectId | src/LocalesConfig.php:76-79 | only the project id changes; the cache stays valid |
| Config.LocalesConfig.SetTranslationLocation | src/LocalesConfig.php:81-85 | only the layout changes, and the cache is cleared |
| Config.LocalesConfig.GetModuleProperties | src/LocalesConfig.php:100-142 | returns a cached descriptor unchanged, otherwise builds and caches it; the result is the one the current settings give |
| Config.LocalesConfig.GetModulePath | src/LocalesConfig.php:144-148 | the descriptor's normalised path, or the descriptor's error |
| Config.LocalesConfig.GetModuleOriginalTranslationPath | src/LocalesConfig.php:150-154 | the module's directory for the given locale, or the descriptor's error |
| Config.LocalesConfig.GetModuleOriginalMainTranslationPath | src/LocalesConfig.php:156-160 | the module's directory for the global main locale, or the descriptor's error |
| Config.LocalesConfig.GetModuleTranslationPath | src/LocalesConfig.php:162-189 | the layout's pattern with both placeholders filled, or the descriptor's error |
| Config.LocalesConfig.GetModuleLocaleFiles | src/LocalesConfig.php:191-213 | the sorted locale files of the global main-locale directory, or the descriptor's error, or a missing-directory error |
| ToPo.Candidate | src/Command/ConvertPropertiesToPo.php:127-130 | the locale file's value when it has the key, else the module's own locale file's value; none when neither has it |
| ToPo.ForwardTranslation | src/Command/ConvertPropertiesToPo.php:131-135 | a candidate that exists and differs from the reference is the translation; otherwise the translation is empty |
| ToPo.FilePlan | src/Command/ConvertPropertiesToPo.php:123-136 | one insertion per reference key, in file order: its context, the reference value and the chosen translation |
| ToPo.ReadIfExists | src/Command/ConvertPropertiesToPo.php:104-107 | a missing file reads as empty |
| ToPo.OriginalFor | src/Command/ConvertPropertiesToPo.php:111-114 | the module's own locale file is read only when its directory differs from the translation directory |
| ToPo.FileStep | src/Command/ConvertPropertiesToPo.php:103-136 | a missing reference file is the error; otherwise the file's insertions |
| ToPo.FileSteps | src/Command/ConvertPropertiesToPo.php:100 | one step per locale file, in order |
| ToPo.ForwardPlan | src/Command/ConvertPropertiesToPo.php:100-137 | the run completes exactly when every reference file exists |
| ToPo.ForwardInputs | src/Command/ConvertPropertiesToPo.php:69-74 | the descriptor's error or the missing-directory error; otherwise the translation directory, the two module directories and the locale files the getters give |
| ToPo.ForwardCatalog | src/Command/ConvertPropertiesToPo.php:69-137 | the inputs' error; otherwise it completes exactly when every reference file exists, with the PO headers of the project, module and locale |
| ToPo.ForwardCatalogCovers | src/Command/ConvertPropertiesToPo.php:100-137 | every pair of every converted reference file is in the saved catalog, with its context among its references |
| ToPo.ReadFile | src/Command/ConvertPropertiesToPo.php:103-136 | reading the three files of one name gives that file's step |
| ToPo.BuildEntries | src/Command/ConvertPropertiesToPo.php:100-137 | the loops give the entries of all insertions in turn, or the first missing reference file's error |
| ToPo.GatherInputs | src/Command/ConvertPropertiesToPo.php:69-74 | the getter calls give the forward inputs to the settings as they were, and leave the settings unchanged |
| ToPo.ConvertPropertiesToPo | src/Command/ConvertPropertiesToPo.php:59-147 | saves the forward catalog at `<po root>/<module>.po` after creating the root; on an error nothing is written; properties files are never touched |
| ToProperties.Resolve | src/Command/ConvertPoToProperties.php:109-117 | the value is a non-blank translation or the reference string; a blank or missing translation gives the reference |
| ToProperties.ResolvedProperties | src/Command/ConvertPoToProperties.php:107-122 | one assigned pair per reference key |
| ToProperties.ResolvedPropertiesAt | src/Command/ConvertPoToProperties.php:107-121 | the i-th assigned pair is the i-th reference key with its resolved value |
| ToProperties.IfNotBlank | src/Command/ConvertPoToProperties.php:115-117 | a blank value is replaced by the reference, a non-blank one kept |
| ToProperties.ResolveKey | src/Command/ConvertPoToProperties.php:108-121 | the loop body assigns the i-th reference key its resolved value |
| ToProperties.ResolveFile | src/Command/ConvertPoToProperties.php:106-122 | the resolved properties, with `sameAsUs` true exactly when every value equals the reference |
| ToProperties.BackwardStep | src/Command/ConvertPoToProperties.php:99-137 | a missing reference file is the error; a differing file is written with the writer options, otherwise the locale file is removed |
| ToProperties.BackwardRun | src/Command/ConvertPoToProperties.php:96-138 | no files leaves everything as it was |
| ToProperties.BackwardRunTouchesOnlyTargets | src/Command/ConvertPoToProperties.php:123-137 | a file outside the targets of the run is neither created, changed nor removed |
| ToProperties.BackwardRunResult | src/Command/ConvertPoToProperties.php:96-138 | after a completed run over distinct files whose targets are no reference file, each target holds the resolved properties when a value differs, and no file otherwise |
| ToProperties.BackwardInputs | src/Command/ConvertPoToProperties.php:70-73 | the descriptor's error or the missing-directory error; otherwise the translation directory, the main-locale directory, the header and the locale files the getters give |
| ToProperties.GatherBackwardInputs | src/Command/ConvertPoToProperties.php:70-73 | the getter calls give the backward inputs to the settings as they were, and leave the settings unchanged |
| ToProperties.BackwardOutcome | src/Command/ConvertPoToProperties.php:70-138 | an input error or an unreadable PO file leaves everything alone with that error; otherwise the locale directory is created and the run over the files decides the rest |
| ToProperties.WriteFiles | src/Command/ConvertPoToProperties.php:96-138 | the loop on the file system ends in the state and error of `BackwardRun` |
| ToProperties.ConvertPoToProperties | src/Command/ConvertPoToProperties.php:59-140 | the listings, properties files and error are those of `BackwardOutcome` for the command's settings; catalogs are never touched |
| ToPot.TemplatePlan | src/Command/ConvertPropertiesToPot.php:88-98 | one insertion per reference pair |
| ToPot.TemplatePlanAt | src/Command/ConvertPropertiesToPot.php:92-97 | the i-th insertion comes from the i-th pair in `ksort` order, untranslated |
| ToPot.TemplateContextsSorted | src/Command/ConvertPropertiesToPot.php:92-94 | within one file the contexts come in key order |
| ToPot.TemplatePlanCoversReference | src/Command/ConvertPropertiesToPot.php:88-98 | every reference pair appears with its context and an empty translation |
| ToPot.TemplateStep | src/Command/ConvertPropertiesToPot.php:84-98 | a missing reference file is the error; otherwise the file's sorted insertions |
| ToPot.TemplateSteps | src/Command/ConvertPropertiesToPot.php:82 | one step per locale file, in order |
| ToPot.TemplatePlanAll | src/Command/ConvertPropertiesToPot.php:82-99 | the run completes exactly when every reference file exists |
| ToPot.TemplateUntranslated | src/Command/ConvertPropertiesToPot.php:97 | a run of steps without translations has none |
| ToPot.TemplatePlanAllUntranslated | src/Command/ConvertPropertiesToPot.php:97 | every insertion of the template has an empty translation |
| ToPot.TemplateCatalog | src/Command/ConvertPropertiesToPot.php:58-99 | the descriptor's or missing-directory error; otherwise it completes exactly when every reference file exists, with the template headers |
| ToPot.TemplateCatalogCovers | src/Command/ConvertPropertiesToPot.php:82-99 | every pair of every converted reference file is in the saved template, with its context among its references |
| ToPot.CopyPairs | src/Command/ConvertPropertiesToPot.php:88-91 | the copied array holds the file's pairs, in file order |
| ToPot.ReadTemplateFile | src/Command/ConvertPropertiesToPot.php:84-98 | reading, copying and sorting one file gives that file's step |
| ToPot.BuildTemplateEntries | src/Command/ConvertPropertiesToPot.php:82-99 | the loops give the entries of all insertions in turn, or the first missing reference file's error |
| ToPot.GatherTemplateInputs | src/Command/ConvertPropertiesToPot.php:58-61 | the descriptor's error, the missing-directory error, or the main-locale directory and the locale files |
| ToPot.ConvertPropertiesToPot | src/Command/ConvertPropertiesToPot.php:54-110 | saves the template at `<pot root>/<module>.pot` after creating the root; on an error nothing is written |
| Agreement.ForwardPlanFresh | src/Command/ConvertPropertiesToPo.php:120-125 | the insertions of one file without repeated keys have pairwise distinct contexts |
| Agreement.ForwardThenBackward | src/Command/ConvertPoToProperties.php:107-121 | converting one file to PO and back gives each key its non-blank differing candidate, or else its reference string |
| Agreement.ForwardThenBackwardRewrites | src/Command/ConvertPoToProperties.php:118-137 | after the round trip the locale file is rewritten exactly when some key has a non-blank candidate that differs from the reference |
| Agreement.InsertAllUntranslated | src/Command/ConvertPropertiesToPot.php:95-97 | inserting only empty translations into an untranslated catalog leaves it untranslated |
| Agreement.TemplateCatalogUntranslated | src/Command/ConvertPropertiesToPot.php:93-98 | every entry of a template catalog has an empty translation |
| Agreement.UntranslatedConvertsToReference | src/Command/ConvertPoToProperties.php:109-120 | converting back from a catalog without translations gives the reference file, so it is never written |
| Agreement.TemplateMatchesForward | src/Command/ConvertPropertiesToPot.php:93-95 | the template and the PO catalog of one file carry the same (context, original) pairs |

## Left out

- Parsing the INI file is left out. The model takes the parsed INI (top-level
  keys and sections) as an input. The constructor's check that the file
  exists is left out with it.
- `Path::normalizePath`, `realpath`, `dirname` and `getcwd` are left out. They
  are a `Normalizer` parameter and plain string parameters. The INI
  directory is given as it is. The model does not add a trailing separator
  to the default application path (the INI directory), so the layouts join
  it exactly as the source does.
- `file_exists`, `is_dir`, `is_readable`, `opendir` and `readdir` are modelled
  only as lookups in the three maps of `FileSystem`. A directory whose
  `opendir` fails is not modelled: an existing directory always lists its
  entries.
- Writing a file does not update the directory listings. No command lists a
  directory after writing into it.
- `Directory::create` is a single path added to the listings. The parent
  directories it also creates are not modelled.
- PHP's loose `==` and `!=` between two numeric strings (`"1.0" == "1"`) are
  left out. All string comparisons are exact, so values that differ only
  numerically count as different.
- `sort` and `ksort` compare strings byte-wise here. PHP's comparison of
  numeric strings and integer keys is left out, and so is the instability
  of PHP's sort on equal keys. The in-place sort is a pure function.
- The parser, the writer and the serialisation of properties files are left
  out: escapes, multi-line values and line wrapping. So is the PO
  generator and extractor of the gettext library. A properties file is its
  sequence of pairs, with the writer options recorded. A PO file is its
  catalog. `headersSorting` is left out.
- Gettext's `Translations` internals beyond `insert`, `find`,
  `addReference` and `setTranslation` are left out (plural forms,
  comments, flags).
- The current time is the `now` parameter, already formatted as
  `Y-m-d H:i+O`.
- Console input and output, the `writeln` calls and exit codes are left
  out. An exception is an `Error` result that ends the command.
- `AbstractCommand` is left out. It only builds the configuration from the
  `--config` option, and the model takes its result as inputs.
- The trivial getters `getApplicationPath`, `getPropertiesFileHeader` and
  `getProjectId` are read as fields of `LocalesConfig`.
- The `--main-locale` option of `convert:properties:pot` is declared but
  never read by `execute`. Like the source, the model ignores it.
- A module's own `mainLocale` is stored in its descriptor, but no getter
  reads it. Lemma `Config.MainPathIgnoresModuleLocale` states the
  consequence.
- A context is unique only within one file. Lemma
  `Identity.ContextKeysCollideAcrossFiles` shows two files of one module
  that share a context.
- Agreement.ForwardThenBackward: stated for one reference file without
  repeated keys, converted on its own.
  - Across several files, contexts can collide (see above).
  - `find` returns the first matching entry.
  - So the multi-file round trip is not claimed.
- A top-level INI key that is itself a section is not modelled.
- ReplaceAll: its own contract states only that a string without the
  needle's first character is unchanged. Replacement of every occurrence is
  lemma `Strings.ReplaceAllJoin`, for pieces free of the needle's first
  character; pieces holding a partial match are not characterised.
- BackwardRun: its own contract states only the run over no files. What a
  completed run leaves is lemmas `ToProperties.BackwardRunResult` and
  `ToProperties.BackwardRunTouchesOnlyTargets`. The first needs distinct
  file names whose targets are no reference file, because a later write
  could otherwise replace an earlier one or a reference file.
- ForwardCatalogCovers: states that every reference pair is found in the
  saved catalog, not which translation it ends with across several files,
  because contexts can collide across files and a later insertion then
  replaces the translation.
