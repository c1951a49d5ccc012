/**
 * The `convert:properties:pot` command: builds the translation template of
 * one module from its reference properties files. Within each file the keys
 * are taken in `ksort` order, every entry has an empty translation, and the
 * headers are those of a PO catalog without the locale.
 */
module ToPot {
  import opened Strings
  import opened Sorting
  import opened Outcomes
  import opened Catalog
  import opened Identity
  import opened Files
  import opened Config


  /** The insertions for one reference file: its pairs in key order, untranslated. */
  function TemplatePlan(moduleName: string, file: string, reference: Properties): (r: seq<Insertion>)
    ensures |r| == |reference|
  {
    var sorted := KeySort(reference);
    seq(|sorted|, i requires 0 <= i < |sorted| => Insertion(ContextKey(moduleName, file, sorted[i].0), sorted[i].1, ""))
  }

  /** The `i`-th insertion comes from the `i`-th pair in key order. */
  lemma TemplatePlanAt(moduleName: string, file: string, reference: Properties, i: nat)
    requires i < |reference|
    ensures TemplatePlan(moduleName, file, reference)[i]
      == Insertion(ContextKey(moduleName, file, KeySort(reference)[i].0), KeySort(reference)[i].1, "")
  {
  }

  /** Within one file the contexts come in key order as well, since they share their prefix. */
  lemma TemplateContextsSorted(moduleName: string, file: string, reference: Properties, i: nat, j: nat)
    requires i < j < |reference|
    ensures LexLeq(TemplatePlan(moduleName, file, reference)[i].context, TemplatePlan(moduleName, file, reference)[j].context)
  {
    var sorted := KeySort(reference);
    TemplatePlanAt(moduleName, file, reference, i);
    TemplatePlanAt(moduleName, file, reference, j);
    var prefix := moduleName + "~" + FileId(file) + ".";
    assert ContextKey(moduleName, file, sorted[i].0) == prefix + sorted[i].0;
    assert ContextKey(moduleName, file, sorted[j].0) == prefix + sorted[j].0;
    KeySortSpec(reference);
    assert LexLeq(KeyOf(sorted[i]), KeyOf(sorted[j]));
    LexLeqPrefix(prefix, sorted[i].0, sorted[j].0);
  }

  /** Each reference pair appears in the plan, with its context and an empty translation. */
  lemma TemplatePlanCoversReference(moduleName: string, file: string, reference: Properties, k: nat)
    requires k < |reference|
    ensures Insertion(ContextKey(moduleName, file, reference[k].0), reference[k].1, "") in TemplatePlan(moduleName, file, reference)
  {
    var sorted := KeySort(reference);
    KeySortSpec(reference);
    assert reference[k] in multiset(reference);
    assert reference[k] in multiset(sorted);
    var i :| 0 <= i < |sorted| && sorted[i] == reference[k];
    TemplatePlanAt(moduleName, file, reference, i);
    assert TemplatePlan(moduleName, file, reference)[i] == Insertion(ContextKey(moduleName, file, reference[k].0), reference[k].1, "");
  }

  /** The insertions for one file, or the error of a missing reference file. */
  function TemplateStep(props: map<string, PropertyFile>, main: string, moduleName: string, file: string): (r: Result<seq<Insertion>>)
    ensures r.Err? <==> main + file !in props
    ensures r.Err? ==> r.error == CannotReadProperties(main + file)
    ensures r.Ok? ==> r.value == TemplatePlan(moduleName, file, props[main + file].entries)
  {
    if main + file !in props then Err(CannotReadProperties(main + file))
    else Ok(TemplatePlan(moduleName, file, props[main + file].entries))
  }

  /** The result of each file of the loop, in order. */
  function TemplateSteps(props: map<string, PropertyFile>, main: string, moduleName: string, files: seq<string>)
    : (r: seq<Result<seq<Insertion>>>)
    ensures |r| == |files|
    ensures forall i :: 0 <= i < |r| ==> r[i] == TemplateStep(props, main, moduleName, files[i])
  {
    seq(|files|, i requires 0 <= i < |files| => TemplateStep(props, main, moduleName, files[i]))
  }

  /** The insertions of all files in turn; the first missing reference file stops it. */
  function TemplatePlanAll(props: map<string, PropertyFile>, main: string, moduleName: string, files: seq<string>): (r: Result<seq<Insertion>>)
    ensures r.Ok? <==> forall i :: 0 <= i < |files| ==> main + files[i] in props
  {
    Concat(TemplateSteps(props, main, moduleName, files))
  }

  /** A template leaves every translation empty. */
  lemma {:induction false} TemplateUntranslated(steps: seq<Result<seq<Insertion>>>, k: nat)
    requires forall i, j :: 0 <= i < |steps| && steps[i].Ok? && 0 <= j < |steps[i].value| ==> steps[i].value[j].translation == ""
    requires Concat(steps).Ok? && k < |Concat(steps).value|
    ensures Concat(steps).value[k].translation == ""
    decreases |steps|
  {
    var head := steps[0].value;
    var tail := Concat(steps[1..]);
    if k < |head| {
      assert Concat(steps).value[k] == head[k];
    } else {
      assert Concat(steps).value[k] == tail.value[k - |head|];
      assert forall i :: 1 <= i < |steps| ==> steps[1..][i - 1] == steps[i];
      TemplateUntranslated(steps[1..], k - |head|);
    }
  }

  /** Every insertion of the template has an empty translation. */
  lemma TemplatePlanAllUntranslated(props: map<string, PropertyFile>, main: string, moduleName: string,
                                    files: seq<string>, k: nat)
    requires TemplatePlanAll(props, main, moduleName, files).Ok?
    requires k < |TemplatePlanAll(props, main, moduleName, files).value|
    ensures TemplatePlanAll(props, main, moduleName, files).value[k].translation == ""
  {
    var steps := TemplateSteps(props, main, moduleName, files);
    forall i, j | 0 <= i < |steps| && steps[i].Ok? && 0 <= j < |steps[i].value|
      ensures steps[i].value[j].translation == ""
    {
      var reference := props[main + files[i]].entries;
      TemplatePlanAt(moduleName, files[i], reference, j);
    }
    TemplateUntranslated(steps, k);
  }

  /** The whole template the command saves, or the error it stops with. */
  function TemplateCatalog(ini: Ini, iniDir: string, normalize: Normalizer, s: Settings,
                           dirs: map<string, seq<string>>, props: map<string, PropertyFile>,
                           moduleName: string, now: string): (r: Result<Catalog>)
    ensures DescribeModule(ini, s, normalize, moduleName).Err? ==> r == Err(DescribeModule(ini, s, normalize, moduleName).error)
    ensures DescribeModule(ini, s, normalize, moduleName).Ok? ==>
      var d := DescribeModule(ini, s, normalize, moduleName).value;
      var files := ModuleLocaleFiles(d, moduleName, s.mainLocale, dirs);
      && (files.Err? ==> r == Err(files.error))
      && (files.Ok? ==> (r.Ok? <==> forall i :: 0 <= i < |files.value| ==> OriginalTranslationPath(d, s.mainLocale) + files.value[i] in props))
    ensures r.Ok? ==> r.value.headers == PotHeaders(s.projectId, moduleName, now)
  {
    var d :- DescribeModule(ini, s, normalize, moduleName);
    var main := OriginalTranslationPath(d, s.mainLocale);
    var files :- ModuleLocaleFiles(d, moduleName, s.mainLocale, dirs);
    var plan :- TemplatePlanAll(props, main, moduleName, files);
    Ok(Catalog(PotHeaders(s.projectId, moduleName, now), InsertAll([], plan)))
  }

  /**
   * Every pair of every reference file the command converts is in the saved
   * template, with its context among its references.
   */
  lemma TemplateCatalogCovers(ini: Ini, iniDir: string, normalize: Normalizer, s: Settings,
                              dirs: map<string, seq<string>>, props: map<string, PropertyFile>,
                              moduleName: string, now: string, file: string, key: string, value: string)
    requires TemplateCatalog(ini, iniDir, normalize, s, dirs, props, moduleName, now).Ok?
    requires DescribeModule(ini, s, normalize, moduleName).Ok?
    requires ModuleLocaleFiles(DescribeModule(ini, s, normalize, moduleName).value, moduleName, s.mainLocale, dirs).Ok?
    requires var d := DescribeModule(ini, s, normalize, moduleName).value;
      var main := OriginalTranslationPath(d, s.mainLocale);
      && file in ModuleLocaleFiles(d, moduleName, s.mainLocale, dirs).value
      && main + file in props && (key, value) in props[main + file].entries
    ensures var entries := TemplateCatalog(ini, iniDir, normalize, s, dirs, props, moduleName, now).value.entries;
      && Find(entries, ContextKey(moduleName, file, key), value).Some?
      && ContextKey(moduleName, file, key) in Find(entries, ContextKey(moduleName, file, key), value).value.references
  {
    var d := DescribeModule(ini, s, normalize, moduleName).value;
    var main := OriginalTranslationPath(d, s.mainLocale);
    var files := ModuleLocaleFiles(d, moduleName, s.mainLocale, dirs).value;
    var steps := TemplateSteps(props, main, moduleName, files);
    var plan := Concat(steps).value;
    var i :| 0 <= i < |files| && files[i] == file;
    var reference := props[main + file].entries;
    var k :| 0 <= k < |reference| && reference[k] == (key, value);
    var template := TemplatePlan(moduleName, file, reference);
    assert steps[i] == Ok(template);
    TemplatePlanCoversReference(moduleName, file, reference, k);
    var m :| 0 <= m < |template| && template[m] == Insertion(ContextKey(moduleName, file, key), value, "");
    ConcatContains(steps, i, m);
    var j :| 0 <= j < |plan| && plan[j] == template[m];
    InsertAllFinds([], plan, j);
  }

  /** The copy of the parsed properties into an array, in file order. */
  method CopyPairs(properties: Properties) returns (propertiesArray: Properties)
    ensures propertiesArray == properties
  {
    propertiesArray := [];
    var i := 0;
    while i < |properties|
      invariant 0 <= i <= |properties|
      invariant propertiesArray == properties[..i]
    {
      TakeNext(properties, i);
      propertiesArray := propertiesArray + [properties[i]];
      i := i + 1;
    }
    TakeWhole(properties);
  }

  /** Reading, copying and sorting one reference file, as the body of the outer loop does. */
  method ReadTemplateFile(props: map<string, PropertyFile>, main: string, moduleName: string, f: string)
    returns (r: Result<seq<Insertion>>)
    ensures r == TemplateStep(props, main, moduleName, f)
  {
    if main + f !in props {
      return Err(CannotReadProperties(main + f));
    }
    var propertiesArray := CopyPairs(props[main + f].entries);
    propertiesArray := KeySort(propertiesArray);
    var plan: seq<Insertion> := [];
    ghost var whole := TemplatePlan(moduleName, f, props[main + f].entries);
    var i := 0;
    while i < |propertiesArray|
      invariant 0 <= i <= |propertiesArray|
      invariant plan == whole[..i]
    {
      var msgctxt := ContextKey(moduleName, f, propertiesArray[i].0);
      TemplatePlanAt(moduleName, f, props[main + f].entries, i);
      TakeNext(whole, i);
      plan := plan + [Insertion(msgctxt, propertiesArray[i].1, "")];
      i := i + 1;
    }
    TakeWhole(whole);
    r := Ok(plan);
  }

  /** The outer loop over the files and the inner one over their sorted keys. */
  method BuildTemplateEntries(props: map<string, PropertyFile>, main: string, moduleName: string, files: seq<string>)
    returns (r: Result<seq<Entry>>)
    ensures r.Ok? <==> TemplatePlanAll(props, main, moduleName, files).Ok?
    ensures r.Ok? ==> r.value == InsertAll([], TemplatePlanAll(props, main, moduleName, files).value)
    ensures r.Err? ==> r.error == TemplatePlanAll(props, main, moduleName, files).error
  {
    var entries: seq<Entry> := [];
    ghost var plan: seq<Insertion> := [];
    ghost var steps := TemplateSteps(props, main, moduleName, files);
    var i := 0;
    ConcatStart(steps);
    while i < |files|
      invariant 0 <= i <= |files|
      invariant Concat(steps) == Prefixed(plan, Concat(steps[i..]))
      invariant entries == InsertAll([], plan)
    {
      var step := ReadTemplateFile(props, main, moduleName, files[i]);
      assert step == steps[i];
      if step.Err? {
        ConcatStops(steps, i, plan);
        return Err(step.error);
      }
      ConcatStep(steps, i, plan, step.value);
      InsertAllAppend([], plan, step.value);
      entries := InsertEach(entries, step.value);
      plan := plan + step.value;
      i := i + 1;
    }
    ConcatDone(steps, plan);
    r := Ok(entries);
  }

  /** The getter calls that precede the loop: the main locale directory and the file names. */
  method GatherTemplateInputs(config: LocalesConfig, moduleName: string, dirs: map<string, seq<string>>)
    returns (r: Result<(string, seq<string>)>)
    requires config.Valid()
    modifies config
    ensures var described := DescribeModule(config.ini, old(config.Current()), config.normalize, moduleName);
      && (described.Err? ==> r == Err(described.error))
      && (described.Ok? ==>
            var files := ModuleLocaleFiles(described.value, moduleName, old(config.mainLocale), dirs);
            && (files.Err? ==> r == Err(files.error))
            && (files.Ok? ==> r == Ok((OriginalTranslationPath(described.value, old(config.mainLocale)), files.value))))
    ensures config.Current() == old(config.Current())
  {
    ghost var s := config.Current();
    // Only the first call can fail on the module: later ones find it described.
    var modulePath :- config.GetModulePath(moduleName);
    ghost var d := config.Describe(moduleName).value;
    var originalLocalesPath := config.GetModuleOriginalMainTranslationPath(moduleName);
    var files :- config.GetModuleLocaleFiles(moduleName, dirs);
    assert files == ModuleLocaleFiles(d, moduleName, s.mainLocale, dirs).value;
    r := Ok((originalLocalesPath.value, files));
  }

  /**
   * The command: the template is built from the reference files of the
   * configured main locale and saved as `<pot root>/<module>.pot`; nothing
   * is written when it stops with an error.
   */
  method ConvertPropertiesToPot(ini: Ini, iniDir: string, normalize: Normalizer, fs: FileSystem,
                                moduleName: string, potRoot: string, cwd: string, now: string) returns (r: Result<string>)
    modifies fs
    ensures var out := TemplateCatalog(ini, iniDir, normalize, InitialSettings(ini, iniDir, normalize),
                                       old(fs.dirs), old(fs.properties), moduleName, now);
      && (r.Ok? <==> out.Ok?)
      && (r.Err? ==> r.error == out.error && fs.dirs == old(fs.dirs) && fs.catalogs == old(fs.catalogs))
      && (r.Ok? ==> r.value == CatalogFile(normalize, potRoot, cwd, moduleName + ".pot")
                    && fs.catalogs == old(fs.catalogs)[r.value := out.value]
                    && fs.dirs == WithDirectory(old(fs.dirs), normalize(potRoot, cwd)))
    ensures fs.properties == old(fs.properties)
  {
    var config := new LocalesConfig(ini, iniDir, normalize);
    ghost var out := TemplateCatalog(ini, iniDir, normalize, config.Current(), fs.dirs, fs.properties, moduleName, now);
    var inputs :- GatherTemplateInputs(config, moduleName, fs.dirs);
    var entries :- BuildTemplateEntries(fs.properties, inputs.0, moduleName, inputs.1);
    var headers := PotHeaders(config.projectId, moduleName, now);
    assert out == Ok(Catalog(headers, entries));

    var potPath := normalize(potRoot, cwd);
    fs.CreateDirectory(potPath);
    var potFile := potPath + moduleName + ".pot";
    AppendAssoc(potPath, moduleName, ".pot");
    fs.WriteCatalog(potFile, Catalog(headers, entries));
    r := Ok(potFile);
  }
}
