/**
 * The `convert:properties:po` command: builds the PO catalog of one module and
 * one locale from the module's reference properties files, taking each
 * translation from the locale's own files, or else from the locale's files
 * inside the module.
 */
module ToPo {
  import opened Strings
  import opened Outcomes
  import opened Catalog
  import opened Identity
  import opened Files
  import opened Config

  /** The value a key has in the locale file, else in the module's original locale file. */
  function Candidate(localeProps: Properties, originalProps: Properties, key: string): (r: Option<string>)
    ensures Lookup(localeProps, key).Some? ==> r == Lookup(localeProps, key)
    ensures Lookup(localeProps, key).None? ==> r == Lookup(originalProps, key)
    ensures r.None? <==> Lookup(localeProps, key).None? && Lookup(originalProps, key).None?
  {
    var local := Lookup(localeProps, key);
    if local.Some? then local else Lookup(originalProps, key)
  }

  /** A candidate that exists and differs from the reference string, else ''. */
  function ForwardTranslation(candidate: Option<string>, reference: string): (t: string)
    ensures t != "" ==> candidate == Some(t) && t != reference
    ensures candidate.Some? && candidate.value != reference ==> t == candidate.value
    ensures candidate.None? || candidate.value == reference ==> t == ""
  {
    if candidate.Some? && candidate.value != reference then candidate.value else ""
  }

  /** What the inner loop inserts for the reference key `key` with value `value`. */
  function ForwardInsertion(moduleName: string, file: string, key: string, value: string,
                            localeProps: Properties, originalProps: Properties): Insertion
  {
    Insertion(ContextKey(moduleName, file, key), value, ForwardTranslation(Candidate(localeProps, originalProps, key), value))
  }

  /** The insertions for one reference file, in the file's key order. */
  function FilePlan(moduleName: string, file: string, reference: Properties,
                    localeProps: Properties, originalProps: Properties): (r: seq<Insertion>)
    ensures |r| == |reference|
    ensures forall i :: 0 <= i < |r| ==>
      && r[i].context == ContextKey(moduleName, file, reference[i].0)
      && r[i].original == reference[i].1
      && r[i].translation == ForwardTranslation(Candidate(localeProps, originalProps, reference[i].0), reference[i].1)
  {
    seq(|reference|, i requires 0 <= i < |reference| =>
      ForwardInsertion(moduleName, file, reference[i].0, reference[i].1, localeProps, originalProps))
  }

  /** The three directories the command reads from. */
  datatype Sources = Sources(locales: string, original: string, main: string)

  /** A properties file that may be missing: missing reads as empty. */
  function ReadIfExists(props: map<string, PropertyFile>, path: string): (r: Properties)
    ensures path !in props ==> r == []
    ensures path in props ==> r == props[path].entries
  {
    if path in props then props[path].entries else []
  }

  /** The module's own locale file, read only when it is not the locale file itself. */
  function OriginalFor(props: map<string, PropertyFile>, src: Sources, file: string): (r: Properties)
    ensures src.original == src.locales ==> r == []
    ensures src.original != src.locales ==> r == ReadIfExists(props, src.original + file)
  {
    if src.original != src.locales then ReadIfExists(props, src.original + file) else []
  }

  /** The insertions for one file, or the error of a missing reference file. */
  function FileStep(props: map<string, PropertyFile>, src: Sources, moduleName: string, file: string): (r: Result<seq<Insertion>>)
    ensures r.Err? <==> src.main + file !in props
    ensures r.Err? ==> r.error == CannotReadProperties(src.main + file)
    ensures r.Ok? ==> r.value == FilePlan(moduleName, file, props[src.main + file].entries,
      ReadIfExists(props, src.locales + file), OriginalFor(props, src, file))
  {
    if src.main + file !in props then Err(CannotReadProperties(src.main + file))
    else Ok(FilePlan(moduleName, file, props[src.main + file].entries,
      ReadIfExists(props, src.locales + file), OriginalFor(props, src, file)))
  }

  /** The result of each file of the loop, in order. */
  function FileSteps(props: map<string, PropertyFile>, src: Sources, moduleName: string, files: seq<string>)
    : (r: seq<Result<seq<Insertion>>>)
    ensures |r| == |files|
    ensures forall i :: 0 <= i < |r| ==> r[i] == FileStep(props, src, moduleName, files[i])
  {
    seq(|files|, i requires 0 <= i < |files| => FileStep(props, src, moduleName, files[i]))
  }

  /** The insertions of all files in turn; the first missing reference file stops it. */
  function ForwardPlan(props: map<string, PropertyFile>, src: Sources, moduleName: string, files: seq<string>): (r: Result<seq<Insertion>>)
    ensures r.Ok? <==> forall i :: 0 <= i < |files| ==> src.main + files[i] in props
  {
    Concat(FileSteps(props, src, moduleName, files))
  }

  /** The directories the command reads from and the file names it converts, or the error it stops with. */
  function ForwardInputs(ini: Ini, iniDir: string, normalize: Normalizer, s: Settings,
                         dirs: map<string, seq<string>>, moduleName: string, locale: string): (r: Result<(Sources, seq<string>)>)
    ensures DescribeModule(ini, s, normalize, moduleName).Err? ==> r == Err(DescribeModule(ini, s, normalize, moduleName).error)
    ensures DescribeModule(ini, s, normalize, moduleName).Ok? ==>
      var files := ModuleLocaleFiles(DescribeModule(ini, s, normalize, moduleName).value, moduleName, s.mainLocale, dirs);
      && (files.Err? ==> r == Err(files.error))
      && (files.Ok? ==> r.Ok? && r.value.1 == files.value)
    ensures r.Ok? ==> var d := DescribeModule(ini, s, normalize, moduleName).value;
      && r.value.0.locales == TranslationPath(d, s.applicationPath, iniDir, normalize, moduleName, locale)
      && r.value.0.original == OriginalTranslationPath(d, locale)
      && r.value.0.main == OriginalTranslationPath(d, s.mainLocale)
  {
    var d :- DescribeModule(ini, s, normalize, moduleName);
    var src := Sources(TranslationPath(d, s.applicationPath, iniDir, normalize, moduleName, locale),
                       OriginalTranslationPath(d, locale), OriginalTranslationPath(d, s.mainLocale));
    var files :- ModuleLocaleFiles(d, moduleName, s.mainLocale, dirs);
    Ok((src, files))
  }

  /** The whole catalog the command saves, or the error it stops with. */
  function ForwardCatalog(ini: Ini, iniDir: string, normalize: Normalizer, s: Settings,
                          dirs: map<string, seq<string>>, props: map<string, PropertyFile>,
                          moduleName: string, locale: string, now: string): (r: Result<Catalog>)
    ensures DescribeModule(ini, s, normalize, moduleName).Err? ==> r == Err(DescribeModule(ini, s, normalize, moduleName).error)
    ensures ForwardInputs(ini, iniDir, normalize, s, dirs, moduleName, locale).Err? ==>
      r == Err(ForwardInputs(ini, iniDir, normalize, s, dirs, moduleName, locale).error)
    ensures ForwardInputs(ini, iniDir, normalize, s, dirs, moduleName, locale).Ok? ==>
      var inputs := ForwardInputs(ini, iniDir, normalize, s, dirs, moduleName, locale).value;
      r.Ok? <==> forall i :: 0 <= i < |inputs.1| ==> inputs.0.main + inputs.1[i] in props
    ensures r.Ok? ==> r.value.headers == PoHeaders(s.projectId, moduleName, locale, now)
  {
    var inputs :- ForwardInputs(ini, iniDir, normalize, s, dirs, moduleName, locale);
    var plan :- ForwardPlan(props, inputs.0, moduleName, inputs.1);
    Ok(Catalog(PoHeaders(s.projectId, moduleName, locale, now), InsertAll([], plan)))
  }

  /**
   * Every pair of every reference file the command converts is in the saved
   * catalog, with its context among its references.
   */
  lemma ForwardCatalogCovers(ini: Ini, iniDir: string, normalize: Normalizer, s: Settings,
                             dirs: map<string, seq<string>>, props: map<string, PropertyFile>,
                             moduleName: string, locale: string, now: string,
                             file: string, key: string, value: string)
    requires ForwardCatalog(ini, iniDir, normalize, s, dirs, props, moduleName, locale, now).Ok?
    requires ForwardInputs(ini, iniDir, normalize, s, dirs, moduleName, locale).Ok?
    requires var inputs := ForwardInputs(ini, iniDir, normalize, s, dirs, moduleName, locale).value;
      file in inputs.1 && inputs.0.main + file in props && (key, value) in props[inputs.0.main + file].entries
    ensures var entries := ForwardCatalog(ini, iniDir, normalize, s, dirs, props, moduleName, locale, now).value.entries;
      && Find(entries, ContextKey(moduleName, file, key), value).Some?
      && ContextKey(moduleName, file, key) in Find(entries, ContextKey(moduleName, file, key), value).value.references
  {
    var inputs := ForwardInputs(ini, iniDir, normalize, s, dirs, moduleName, locale).value;
    var src, files := inputs.0, inputs.1;
    var steps := FileSteps(props, src, moduleName, files);
    var plan := Concat(steps).value;
    var i :| 0 <= i < |files| && files[i] == file;
    var reference := props[src.main + file].entries;
    var k :| 0 <= k < |reference| && reference[k] == (key, value);
    var filePlan := FilePlan(moduleName, file, reference, ReadIfExists(props, src.locales + file), OriginalFor(props, src, file));
    assert steps[i] == Ok(filePlan);
    ConcatContains(steps, i, k);
    var j :| 0 <= j < |plan| && plan[j] == filePlan[k];
    InsertAllFinds([], plan, j);
  }

  /** Reading the three files of one name, as the body of the outer loop does. */
  method ReadFile(props: map<string, PropertyFile>, src: Sources, moduleName: string, f: string)
    returns (r: Result<seq<Insertion>>)
    ensures r == FileStep(props, src, moduleName, f)
  {
    var localeProperties: Properties := [];
    if src.locales + f in props {
      localeProperties := props[src.locales + f].entries;
    }
    var originalProperties: Properties := [];
    if src.original != src.locales && src.original + f in props {
      originalProperties := props[src.original + f].entries;
    }
    if src.main + f !in props {
      return Err(CannotReadProperties(src.main + f));
    }
    var reference := props[src.main + f].entries;
    r := Ok(FilePlan(moduleName, f, reference, localeProperties, originalProperties));
  }

  /** The outer loop over the files and the inner one over their keys. */
  method BuildEntries(props: map<string, PropertyFile>, src: Sources, moduleName: string, files: seq<string>)
    returns (r: Result<seq<Entry>>)
    ensures r.Ok? <==> ForwardPlan(props, src, moduleName, files).Ok?
    ensures r.Ok? ==> r.value == InsertAll([], ForwardPlan(props, src, moduleName, files).value)
    ensures r.Err? ==> r.error == ForwardPlan(props, src, moduleName, files).error
  {
    var entries: seq<Entry> := [];
    ghost var plan: seq<Insertion> := [];
    ghost var steps := FileSteps(props, src, moduleName, files);
    var i := 0;
    ConcatStart(steps);
    while i < |files|
      invariant 0 <= i <= |files|
      invariant Concat(steps) == Prefixed(plan, Concat(steps[i..]))
      invariant entries == InsertAll([], plan)
    {
      var step := ReadFile(props, src, moduleName, files[i]);
      assert step == steps[i];
      if step.Err? {
        ConcatStops(steps, i, plan);
        return Err(step.error);
      }
      ConcatStep(steps, i, plan, step.value);
      InsertAllAppend([], plan, step.value);
      entries := InsertEach(entries, step.value);
      plan := plan + step.value;
      i := i + 1;
    }
    ConcatDone(steps, plan);
    r := Ok(entries);
  }

  /** The getter calls that precede the loop, in the order the command makes them. */
  method GatherInputs(config: LocalesConfig, moduleName: string, locale: string, dirs: map<string, seq<string>>)
    returns (r: Result<(Sources, seq<string>)>)
    requires config.Valid()
    modifies config
    ensures r == ForwardInputs(config.ini, config.iniDir, config.normalize, old(config.Current()), dirs, moduleName, locale)
    ensures config.Current() == old(config.Current())
  {
    ghost var s := config.Current();
    // Only the first call can fail on the module: later ones find it described.
    var modulePath :- config.GetModulePath(moduleName);
    ghost var d := config.Describe(moduleName).value;
    var localesPath := config.GetModuleTranslationPath(moduleName, locale);
    var originalLocalesPath := config.GetModuleOriginalTranslationPath(moduleName, locale);
    var enLocalesPath := config.GetModuleOriginalMainTranslationPath(moduleName);
    var files :- config.GetModuleLocaleFiles(moduleName, dirs);
    assert files == ModuleLocaleFiles(d, moduleName, s.mainLocale, dirs).value;
    r := Ok((Sources(localesPath.value, originalLocalesPath.value, enLocalesPath.value), files));
  }

  /**
   * The command: the `--properties-path` option replaces the layout, the
   * catalog is built file by file, key by key, and saved as
   * `<po root>/<module>.po`; nothing is written when it stops with an error.
   */
  method ConvertPropertiesToPo(ini: Ini, iniDir: string, normalize: Normalizer, fs: FileSystem,
                               moduleName: string, locale: string, propertiesPath: string,
                               poRoot: string, cwd: string, now: string) returns (r: Result<string>)
    modifies fs
    ensures var out := ForwardCatalog(ini, iniDir, normalize, CommandSettings(ini, iniDir, normalize, propertiesPath),
                                      old(fs.dirs), old(fs.properties), moduleName, locale, now);
      && (r.Ok? <==> out.Ok?)
      && (r.Err? ==> r.error == out.error && fs.dirs == old(fs.dirs) && fs.catalogs == old(fs.catalogs))
      && (r.Ok? ==> r.value == CatalogFile(normalize, poRoot, cwd, moduleName + ".po")
                    && fs.catalogs == old(fs.catalogs)[r.value := out.value]
                    && fs.dirs == WithDirectory(old(fs.dirs), normalize(poRoot, cwd)))
    ensures fs.properties == old(fs.properties)
  {
    var config := new LocalesConfig(ini, iniDir, normalize);
    if OptionGiven(propertiesPath) {
      config.SetTranslationLocation(propertiesPath);
    }
    ghost var s := config.Current();
    assert s == CommandSettings(ini, iniDir, normalize, propertiesPath);
    ghost var out := ForwardCatalog(ini, iniDir, normalize, s, fs.dirs, fs.properties, moduleName, locale, now);
    var inputs :- GatherInputs(config, moduleName, locale, fs.dirs);
    var entries :- BuildEntries(fs.properties, inputs.0, moduleName, inputs.1);
    var headers := PoHeaders(config.projectId, moduleName, locale, now);
    assert out == Ok(Catalog(headers, entries));

    var poPath := normalize(poRoot, cwd);
    fs.CreateDirectory(poPath);
    var poFile := poPath + moduleName + ".po";
    AppendAssoc(poPath, moduleName, ".po");
    fs.WriteCatalog(poFile, Catalog(headers, entries));
    r := Ok(poFile);
  }
}
