/**
 * The `convert:po:properties` command: writes the properties files of one
 * locale from the module's PO catalog. Each reference key takes its
 * translation when there is a non-blank one and the reference string
 * otherwise; a file whose every value equals the reference is not kept.
 */
module ToProperties {
  import opened Strings
  import opened Outcomes
  import opened Catalog
  import opened Identity
  import opened Files
  import opened Config

  /** The options the command gives the properties writer. */
  function BackwardOptions(header: string): WriterOptions {
    WriterOptions(500, false, true, true, header)
  }

  /** The translation of the pair, '' when the catalog has no such entry. */
  function Translated(entries: seq<Entry>, context: string, reference: string): string {
    var found := Find(entries, context, reference);
    if found.Some? then found.value.translation else ""
  }

  /**
   * The value a key gets: its translation, unless that is blank, i.e. unless
   * `trim` leaves nothing of it (lemma TrimEmptyIffBlank). A resolved value
   * is a non-blank translation or the reference string; a key without an
   * entry gets the reference string.
   */
  function Resolve(entries: seq<Entry>, context: string, reference: string): (r: string)
    ensures r == reference || (r == Translated(entries, context, reference) && !Blank(r))
    ensures Blank(Translated(entries, context, reference)) ==> r == reference
    ensures !Blank(Translated(entries, context, reference)) ==> r == Translated(entries, context, reference)
    ensures Find(entries, context, reference).None? ==> r == reference
  {
    var t := Translated(entries, context, reference);
    if Blank(t) then reference else t
  }

  /** One key with its resolved value. */
  function ResolvedPair(entries: seq<Entry>, moduleName: string, file: string, kv: (string, string)): (string, string) {
    (kv.0, Resolve(entries, ContextKey(moduleName, file, kv.0), kv.1))
  }

  /** The properties the inner loop assigns: the reference keys, in order, resolved. */
  function ResolvedProperties(entries: seq<Entry>, moduleName: string, file: string, reference: Properties): (r: Properties)
    ensures |r| == |reference|
  {
    if reference == [] then []
    else [ResolvedPair(entries, moduleName, file, reference[0])] + ResolvedProperties(entries, moduleName, file, reference[1..])
  }

  /** Each reference key keeps its place and gets its resolved value. */
  lemma {:induction false} ResolvedPropertiesAt(entries: seq<Entry>, moduleName: string, file: string,
                                                reference: Properties, i: nat)
    requires i < |reference|
    ensures ResolvedProperties(entries, moduleName, file, reference)[i] == ResolvedPair(entries, moduleName, file, reference[i])
    decreases i
  {
    var tail := ResolvedProperties(entries, moduleName, file, reference[1..]);
    assert ResolvedProperties(entries, moduleName, file, reference)
      == [ResolvedPair(entries, moduleName, file, reference[0])] + tail;
    if i > 0 {
      ResolvedPropertiesAt(entries, moduleName, file, reference[1..], i - 1);
      assert reference[1..][i - 1] == reference[i];
    }
  }

  /** Every value is the reference file's value for the same position. */
  predicate SameValues(props: Properties, reference: Properties) {
    |props| == |reference| && forall i :: 0 <= i < |reference| ==> props[i].1 == reference[i].1
  }

  /** `if (trim($value) == '') $value = $reference;` */
  method IfNotBlank(value: string, reference: string) returns (r: string)
    ensures Blank(value) ==> r == reference
    ensures !Blank(value) ==> r == value
  {
    r := value;
    if Trim(value) == "" {
      r := reference;
    }
    TrimEmptyIffBlank(value);
  }

  /** The body of the inner loop for the `i`-th reference pair: find, fall back, resolve. */
  method ResolveKey(entries: seq<Entry>, moduleName: string, file: string, reference: Properties, i: nat)
    returns (localeString: string)
    requires i < |reference|
    ensures (reference[i].0, localeString) == ResolvedProperties(entries, moduleName, file, reference)[i]
  {
    ResolvedPropertiesAt(entries, moduleName, file, reference, i);
    var kv := reference[i];
    var msgctxt := ContextKey(moduleName, file, kv.0);
    var found := Find(entries, msgctxt, kv.1);
    localeString := if found.None? then "" else found.value.translation;
    localeString := IfNotBlank(localeString, kv.1);
  }

  /** Helper: one iteration of the inner loop keeps both of its invariants. */
  lemma ResolveFileStep(whole: Properties, reference: Properties, props: Properties, i: nat,
                        localeString: string, sameAsUs: bool)
    requires i < |reference| == |whole| && props == whole[..i]
    requires whole[i] == (reference[i].0, localeString)
    requires sameAsUs <==> forall j :: 0 <= j < i ==> whole[j].1 == reference[j].1
    ensures props + [(reference[i].0, localeString)] == whole[..i + 1]
    ensures (sameAsUs && localeString == reference[i].1) <==> forall j :: 0 <= j < i + 1 ==> whole[j].1 == reference[j].1
  {
    TakeNext(whole, i);
  }

  /** The inner loop: resolves each key and tracks `sameAsUs`. */
  method ResolveFile(entries: seq<Entry>, moduleName: string, file: string, reference: Properties)
    returns (props: Properties, sameAsUs: bool)
    ensures props == ResolvedProperties(entries, moduleName, file, reference)
    ensures sameAsUs <==> SameValues(props, reference)
  {
    props := [];
    sameAsUs := true;
    ghost var whole := ResolvedProperties(entries, moduleName, file, reference);
    var i := 0;
    while i < |reference|
      invariant 0 <= i <= |reference|
      invariant props == whole[..i]
      invariant sameAsUs <==> forall j :: 0 <= j < i ==> whole[j].1 == reference[j].1
    {
      var localeString := ResolveKey(entries, moduleName, file, reference, i);
      ResolveFileStep(whole, reference, props, i, localeString, sameAsUs);
      if localeString != reference[i].1 {
        sameAsUs := false;
      }
      props := props + [(reference[i].0, localeString)];
      i := i + 1;
    }
    TakeWhole(whole);
  }

  /** The directories the command reads from and writes to. */
  datatype Targets = Targets(locales: string, original: string, header: string)

  /** One reference file: written when a value differs, otherwise removed if present. */
  function BackwardStep(props: map<string, PropertyFile>, entries: seq<Entry>, moduleName: string,
                        t: Targets, file: string): (r: Result<map<string, PropertyFile>>)
    ensures r.Err? <==> t.original + file !in props
    ensures r.Err? ==> r.error == CannotReadProperties(t.original + file)
    ensures r.Ok? ==>
      var resolved := ResolvedProperties(entries, moduleName, file, props[t.original + file].entries);
      && (!SameValues(resolved, props[t.original + file].entries) ==>
            r.value == props[t.locales + file := PropertyFile(resolved, Some(BackwardOptions(t.header)))])
      && (SameValues(resolved, props[t.original + file].entries) ==> r.value == props - {t.locales + file})
  {
    if t.original + file !in props then Err(CannotReadProperties(t.original + file))
    else
      var reference := props[t.original + file].entries;
      var resolved := ResolvedProperties(entries, moduleName, file, reference);
      if !SameValues(resolved, reference) then
        Ok(props[t.locales + file := PropertyFile(resolved, Some(BackwardOptions(t.header)))])
      else if t.locales + file in props then Ok(props - {t.locales + file})
      else
        assert props - {t.locales + file} == props;
        Ok(props)
  }

  /** The files processed in turn; a missing reference file stops the run, earlier writes stay. */
  datatype Run = Run(props: map<string, PropertyFile>, error: Option<Error>)

  function BackwardRun(props: map<string, PropertyFile>, entries: seq<Entry>, moduleName: string,
                       t: Targets, files: seq<string>): (r: Run)
    ensures files == [] ==> r == Run(props, None)
    decreases |files|
  {
    if files == [] then Run(props, None)
    else
      var step := BackwardStep(props, entries, moduleName, t, files[0]);
      if step.Err? then Run(props, Some(step.error))
      else BackwardRun(step.value, entries, moduleName, t, files[1..])
  }

  /** Only the files of the target directory can change. */
  lemma {:induction false} BackwardRunTouchesOnlyTargets(props: map<string, PropertyFile>, entries: seq<Entry>,
                                                         moduleName: string, t: Targets, files: seq<string>, path: string)
    requires forall i :: 0 <= i < |files| ==> path != t.locales + files[i]
    ensures var r := BackwardRun(props, entries, moduleName, t, files);
      (path in r.props <==> path in props) && (path in props ==> r.props[path] == props[path])
    decreases |files|
  {
    if files != [] {
      var step := BackwardStep(props, entries, moduleName, t, files[0]);
      if step.Ok? {
        assert path != t.locales + files[0];
        assert forall i :: 0 <= i < |files[1..]| ==> files[1..][i] == files[i + 1];
        BackwardRunTouchesOnlyTargets(step.value, entries, moduleName, t, files[1..], path);
      }
    }
  }

  /**
   * After a run that completes, over distinct file names whose targets are
   * none of the reference files, each file's target holds what its step
   * decides: the resolved properties when a value differs from the reference
   * file, and no file at all otherwise.
   */
  lemma {:induction false} BackwardRunResult(props: map<string, PropertyFile>, entries: seq<Entry>, moduleName: string,
                                             t: Targets, files: seq<string>, i: nat)
    requires BackwardRun(props, entries, moduleName, t, files).error.None?
    requires forall a, b :: 0 <= a < b < |files| ==> files[a] != files[b]
    requires forall a, b :: 0 <= a < |files| && 0 <= b < |files| ==> t.locales + files[a] != t.original + files[b]
    requires i < |files|
    ensures t.original + files[i] in props
    ensures var reference := props[t.original + files[i]].entries;
      var resolved := ResolvedProperties(entries, moduleName, files[i], reference);
      var out := BackwardRun(props, entries, moduleName, t, files).props;
      && (!SameValues(resolved, reference) ==>
            t.locales + files[i] in out && out[t.locales + files[i]] == PropertyFile(resolved, Some(BackwardOptions(t.header))))
      && (SameValues(resolved, reference) ==> t.locales + files[i] !in out)
    decreases |files|
  {
    var step := BackwardStep(props, entries, moduleName, t, files[0]);
    var rest := files[1..];
    assert forall a :: 0 <= a < |rest| ==> rest[a] == files[a + 1];
    var target := t.locales + files[0];
    assert forall a :: 0 <= a < |files| ==> target != t.original + files[a];
    if i == 0 {
      forall a | 0 <= a < |rest| ensures target != t.locales + rest[a] {
        assert files[0] != files[a + 1];
        assert target[|t.locales|..] == files[0] && (t.locales + rest[a])[|t.locales|..] == rest[a];
      }
      BackwardRunTouchesOnlyTargets(step.value, entries, moduleName, t, rest, target);
    } else {
      BackwardRunResult(step.value, entries, moduleName, t, rest, i - 1);
      assert rest[i - 1] == files[i];
      assert t.original + files[i] != target;
    }
  }

  /** What the command leaves behind: directories, properties files, and the error if any. */
  datatype Outcome = Outcome(dirs: map<string, seq<string>>, props: map<string, PropertyFile>, error: Option<Error>)

  /** The directories the command reads from and writes to and the file names it converts, or the error it stops with. */
  function BackwardInputs(ini: Ini, iniDir: string, normalize: Normalizer, s: Settings,
                          dirs: map<string, seq<string>>, moduleName: string, locale: string): (r: Result<(Targets, seq<string>)>)
    ensures DescribeModule(ini, s, normalize, moduleName).Err? ==> r == Err(DescribeModule(ini, s, normalize, moduleName).error)
    ensures DescribeModule(ini, s, normalize, moduleName).Ok? ==>
      var files := ModuleLocaleFiles(DescribeModule(ini, s, normalize, moduleName).value, moduleName, s.mainLocale, dirs);
      && (files.Err? ==> r == Err(files.error))
      && (files.Ok? ==> r.Ok? && r.value.1 == files.value)
    ensures r.Ok? ==> var d := DescribeModule(ini, s, normalize, moduleName).value;
      && r.value.0.locales == TranslationPath(d, s.applicationPath, iniDir, normalize, moduleName, locale)
      && r.value.0.original == OriginalTranslationPath(d, s.mainLocale)
      && r.value.0.header == s.propertiesFileHeader
  {
    var d :- DescribeModule(ini, s, normalize, moduleName);
    var files :- ModuleLocaleFiles(d, moduleName, s.mainLocale, dirs);
    Ok((Targets(TranslationPath(d, s.applicationPath, iniDir, normalize, moduleName, locale),
                OriginalTranslationPath(d, s.mainLocale), s.propertiesFileHeader), files))
  }

  function BackwardOutcome(ini: Ini, iniDir: string, normalize: Normalizer, s: Settings,
                           dirs: map<string, seq<string>>, props: map<string, PropertyFile>,
                           catalogs: map<string, Catalog>, moduleName: string, locale: string,
                           poFile: string): (r: Outcome)
    ensures DescribeModule(ini, s, normalize, moduleName).Err? ==>
      r == Outcome(dirs, props, Some(DescribeModule(ini, s, normalize, moduleName).error))
    ensures var inputs := BackwardInputs(ini, iniDir, normalize, s, dirs, moduleName, locale);
      && (inputs.Err? ==> r == Outcome(dirs, props, Some(inputs.error)))
      && (inputs.Ok? && poFile !in catalogs ==> r == Outcome(dirs, props, Some(UnreadableCatalog(poFile))))
      && (inputs.Ok? && poFile in catalogs ==>
            && r.dirs == WithDirectory(dirs, inputs.value.0.locales)
            && Run(r.props, r.error) == BackwardRun(props, catalogs[poFile].entries, moduleName, inputs.value.0, inputs.value.1))
  {
    var inputs := BackwardInputs(ini, iniDir, normalize, s, dirs, moduleName, locale);
    if inputs.Err? then Outcome(dirs, props, Some(inputs.error))
    else if poFile !in catalogs then Outcome(dirs, props, Some(UnreadableCatalog(poFile)))
    else
      var run := BackwardRun(props, catalogs[poFile].entries, moduleName, inputs.value.0, inputs.value.1);
      Outcome(WithDirectory(dirs, inputs.value.0.locales), run.props, run.error)
  }

  /** The getter calls that precede the PO file check, in the order the command makes them. */
  method GatherBackwardInputs(config: LocalesConfig, moduleName: string, locale: string, dirs: map<string, seq<string>>)
    returns (r: Result<(Targets, seq<string>)>)
    requires config.Valid()
    modifies config
    ensures r == BackwardInputs(config.ini, config.iniDir, config.normalize, old(config.Current()), dirs, moduleName, locale)
    ensures config.Current() == old(config.Current())
  {
    ghost var s := config.Current();
    // Only the first call can fail on the module: later ones find it described.
    var localesPath :- config.GetModuleTranslationPath(moduleName, locale);
    ghost var d := config.Describe(moduleName).value;
    var originalLocalesPath := config.GetModuleOriginalMainTranslationPath(moduleName);
    var files :- config.GetModuleLocaleFiles(moduleName, dirs);
    assert files == ModuleLocaleFiles(d, moduleName, s.mainLocale, dirs).value;
    r := Ok((Targets(localesPath, originalLocalesPath.value, config.propertiesFileHeader), files));
  }

  /** The loop over the files, on the file system. */
  method WriteFiles(fs: FileSystem, entries: seq<Entry>, moduleName: string, t: Targets, files: seq<string>)
    returns (error: Option<Error>)
    modifies fs
    ensures Run(fs.properties, error) == BackwardRun(old(fs.properties), entries, moduleName, t, files)
    ensures fs.dirs == old(fs.dirs) && fs.catalogs == old(fs.catalogs)
  {
    var i := 0;
    assert files[0..] == files;
    while i < |files|
      invariant 0 <= i <= |files|
      invariant BackwardRun(old(fs.properties), entries, moduleName, t, files) == BackwardRun(fs.properties, entries, moduleName, t, files[i..])
      invariant fs.dirs == old(fs.dirs) && fs.catalogs == old(fs.catalogs)
    {
      var f := files[i];
      assert files[i..][0] == f && files[i..][1..] == files[i + 1..];
      if t.original + f !in fs.properties {
        return Some(CannotReadProperties(t.original + f));
      }
      var reference := fs.properties[t.original + f].entries;
      var localeProperties, sameAsUs := ResolveFile(entries, moduleName, f, reference);
      if !sameAsUs {
        fs.WriteProperties(t.locales + f, localeProperties, BackwardOptions(t.header));
      } else if t.locales + f in fs.properties {
        fs.Unlink(t.locales + f);
      }
      i := i + 1;
    }
    assert files[i..] == [];
    error := None;
  }

  /**
   * The command: the `--properties-path` option replaces the layout, the PO
   * file `<po root>/<module>.po` must be readable before anything is
   * written, the locale directory is created when missing, then each
   * reference file is converted in turn.
   */
  method ConvertPoToProperties(ini: Ini, iniDir: string, normalize: Normalizer, fs: FileSystem,
                               moduleName: string, locale: string, propertiesPath: string,
                               poRoot: string, cwd: string) returns (error: Option<Error>)
    modifies fs
    ensures var out := BackwardOutcome(ini, iniDir, normalize, CommandSettings(ini, iniDir, normalize, propertiesPath),
                                       old(fs.dirs), old(fs.properties), old(fs.catalogs), moduleName, locale,
                                       CatalogFile(normalize, poRoot, cwd, moduleName + ".po"));
      fs.dirs == out.dirs && fs.properties == out.props && error == out.error
    ensures fs.catalogs == old(fs.catalogs)
  {
    var config := new LocalesConfig(ini, iniDir, normalize);
    if OptionGiven(propertiesPath) {
      config.SetTranslationLocation(propertiesPath);
    }
    ghost var s := config.Current();
    assert s == CommandSettings(ini, iniDir, normalize, propertiesPath);
    var inputs := GatherBackwardInputs(config, moduleName, locale, fs.dirs);
    if inputs.Err? {
      return Some(inputs.error);
    }

    var poPath := normalize(poRoot, cwd);
    var poFile := poPath + moduleName + ".po";
    AppendAssoc(poPath, moduleName, ".po");
    if poFile !in fs.catalogs {
      return Some(UnreadableCatalog(poFile));
    }
    var translations := fs.catalogs[poFile];

    var targets := inputs.value.0;
    if targets.locales !in fs.dirs {
      fs.CreateDirectory(targets.locales);
    }
    assert fs.dirs == WithDirectory(old(fs.dirs), targets.locales);
    error := WriteFiles(fs, translations.entries, moduleName, targets, inputs.value.1);
  }
}
