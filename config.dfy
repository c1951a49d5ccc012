/**
 * The locales configuration: global settings read from the parsed INI file,
 * per-module descriptors built lazily and memoised, and the directories where
 * the reference and the translated properties files of a module live.
 */
module Config {
  import opened Strings
  import opened Sorting
  import opened Outcomes

  /** A parsed INI file: the keys before any section, and each section's keys. */
  datatype Ini = Ini(top: map<string, string>, sections: map<string, map<string, string>>)

  /** `Path::normalizePath($path, NORM_ADD_TRAILING_SLASH, $base)`, taken as given. */
  type Normalizer = (string, string) -> string

  const DefaultMainLocale: string := "en_US"
  const DefaultTranslationLocation: string := "@module"
  const DefaultProjectId: string := "My Project"

  /** `isset($m[$key]) && $m[$key] != ''`. */
  predicate Present(m: map<string, string>, key: string) {
    key in m && m[key] != ""
  }

  /** The value under `key` when it is present and not empty, else `fallback`. */
  function Setting(m: map<string, string>, key: string, fallback: string): (r: string)
    ensures Present(m, key) ==> r == m[key]
    ensures !Present(m, key) ==> r == fallback
  {
    if Present(m, key) then m[key] else fallback
  }

  /** The `[default]` section, or nothing when the file has none. */
  function DefaultSection(ini: Ini): map<string, string> {
    if "default" in ini.sections then ini.sections["default"] else map[]
  }

  /** The global settings of a configuration object. */
  datatype Settings = Settings(
    applicationPath: string,
    projectId: string,
    propertiesFileHeader: string,
    mainLocale: string,
    translationLocation: string)

  /** What the constructor sets up from the INI file found in `iniDir`. */
  function InitialSettings(ini: Ini, iniDir: string, normalize: Normalizer): Settings {
    Settings(
      if Present(ini.top, "applicationPath") then normalize(ini.top["applicationPath"], iniDir) else iniDir,
      Setting(ini.top, "projectId", DefaultProjectId),
      Setting(ini.top, "propertiesFileHeader", ""),
      Setting(DefaultSection(ini), "mainLocale", DefaultMainLocale),
      Setting(DefaultSection(ini), "translationLocation", DefaultTranslationLocation))
  }

  /** An INI file that sets nothing leaves every default in place. */
  lemma DefaultsWithoutOverrides(ini: Ini, iniDir: string, normalize: Normalizer)
    requires ini.top == map[] && "default" !in ini.sections
    ensures InitialSettings(ini, iniDir, normalize)
      == Settings(iniDir, "My Project", "", "en_US", "@module")
  {
  }

  /** A present, non-empty INI value replaces its default; an empty one does not. */
  lemma OverridesTakeIniValues(ini: Ini, iniDir: string, normalize: Normalizer)
    ensures var s := InitialSettings(ini, iniDir, normalize);
      && (Present(ini.top, "projectId") ==> s.projectId == ini.top["projectId"])
      && (!Present(ini.top, "projectId") ==> s.projectId == "My Project")
      && (Present(DefaultSection(ini), "mainLocale") ==> s.mainLocale == DefaultSection(ini)["mainLocale"])
      && (!Present(DefaultSection(ini), "mainLocale") ==> s.mainLocale == "en_US")
      && (Present(DefaultSection(ini), "translationLocation") ==> s.translationLocation == DefaultSection(ini)["translationLocation"])
      && (!Present(DefaultSection(ini), "translationLocation") ==> s.translationLocation == "@module")
      && (Present(ini.top, "applicationPath") ==> s.applicationPath == normalize(ini.top["applicationPath"], iniDir))
      && (!Present(ini.top, "applicationPath") ==> s.applicationPath == iniDir)
      && (Present(ini.top, "propertiesFileHeader") ==> s.propertiesFileHeader == ini.top["propertiesFileHeader"])
      && (!Present(ini.top, "propertiesFileHeader") ==> s.propertiesFileHeader == "")
  {
  }

  /** `if ($translationPath)`: PHP truthiness of an option value. */
  predicate OptionGiven(value: string) {
    value != "" && value != "0"
  }

  /**
   * The settings a conversion command works with: those of a fresh
   * configuration, with the `--properties-path` option as layout when given.
   */
  function CommandSettings(ini: Ini, iniDir: string, normalize: Normalizer, propertiesPath: string): (s: Settings)
    ensures OptionGiven(propertiesPath) ==> s.translationLocation == propertiesPath
    ensures !OptionGiven(propertiesPath) ==> s == InitialSettings(ini, iniDir, normalize)
    ensures s.(translationLocation := "") == InitialSettings(ini, iniDir, normalize).(translationLocation := "")
  {
    var s := InitialSettings(ini, iniDir, normalize);
    if OptionGiven(propertiesPath) then s.(translationLocation := propertiesPath) else s
  }

  // ---------------------------------------------------------------------------
  // Module descriptors

  /** `$prop` once `getModuleProperties` has completed it. */
  datatype ModuleDescriptor = ModuleDescriptor(
    path: string,
    mainLocale: string,
    translationLocation: string,
    excludePropertiesFiles: seq<string>)

  /** The `array_map` closure: appends the suffix unless the name already ends with it. */
  function NormalizeExcluded(file: string): (r: string)
    ensures EndsWith(r, Suffix)
    ensures EndsWith(file, Suffix) ==> r == file
    ensures !EndsWith(file, Suffix) ==> r == file + Suffix
  {
    if EndsWith(file, Suffix) then file else EndsWithAppended(file, Suffix); file + Suffix
  }

  lemma NormalizeExcludedIdempotent(file: string)
    ensures NormalizeExcluded(NormalizeExcluded(file)) == NormalizeExcluded(file)
  {
  }

  /** The module's `excludePropertiesFiles`, split at commas and normalised. */
  function ExclusionList(section: map<string, string>): (r: seq<string>)
    ensures !Present(section, "excludePropertiesFiles") ==> r == []
    ensures Present(section, "excludePropertiesFiles") ==>
      |r| == |SplitList(section["excludePropertiesFiles"])|
    ensures forall i :: 0 <= i < |r| ==> EndsWith(r[i], Suffix)
  {
    if !Present(section, "excludePropertiesFiles") then []
    else
      var parts := SplitList(section["excludePropertiesFiles"]);
      seq(|parts|, i requires 0 <= i < |parts| => NormalizeExcluded(parts[i]))
  }

  /** Each listed name, with the suffix added where it was missing, is excluded. */
  lemma ExclusionListNames(section: map<string, string>, i: nat)
    requires Present(section, "excludePropertiesFiles")
    requires i < |SplitList(section["excludePropertiesFiles"])|
    ensures ExclusionList(section)[i] == NormalizeExcluded(SplitList(section["excludePropertiesFiles"])[i])
  {
  }

  /**
   * `getModuleProperties` without its cache: the module's section completed
   * with the current global locale and layout, its path normalised against
   * the application path.
   */
  function DescribeModule(ini: Ini, s: Settings, normalize: Normalizer, moduleName: string): (r: Result<ModuleDescriptor>)
    ensures r == Err(UnknownModule) <==> "module:" + moduleName !in ini.sections
    ensures r == Err(UnknownModulePath) <==>
      "module:" + moduleName in ini.sections && !Present(ini.sections["module:" + moduleName], "path")
    ensures r.Ok? <==> "module:" + moduleName in ini.sections && Present(ini.sections["module:" + moduleName], "path")
    ensures r.Ok? ==>
      var section := ini.sections["module:" + moduleName];
      && r.value.path == normalize(section["path"], s.applicationPath)
      && (Present(section, "mainLocale") ==> r.value.mainLocale == section["mainLocale"])
      && (!Present(section, "mainLocale") ==> r.value.mainLocale == s.mainLocale)
      && (Present(section, "translationLocation") ==> r.value.translationLocation == section["translationLocation"])
      && (!Present(section, "translationLocation") ==> r.value.translationLocation == s.translationLocation)
      && r.value.excludePropertiesFiles == ExclusionList(section)
  {
    var key := "module:" + moduleName;
    if key !in ini.sections then Err(UnknownModule)
    else
      var section := ini.sections[key];
      if !Present(section, "path") then Err(UnknownModulePath)
      else
        Ok(ModuleDescriptor(
          normalize(section["path"], s.applicationPath),
          Setting(section, "mainLocale", s.mainLocale),
          Setting(section, "translationLocation", s.translationLocation),
          ExclusionList(section)))
  }

  // ---------------------------------------------------------------------------
  // Paths

  /** `path + "locales/" + locale + "/"`: a locale's directory inside the module. */
  function OriginalTranslationPath(d: ModuleDescriptor, locale: string): (r: string)
    ensures StartsWith(r, d.path + "locales/") && EndsWith(r, locale + "/")
  {
    var r := d.path + "locales/" + locale + "/";
    assert r == (d.path + "locales/") + (locale + "/");
    EndsWithAppended(d.path + "locales/", locale + "/");
    r
  }

  /** Two locales share a module directory only when they are the same locale. */
  lemma OriginalTranslationPathInjective(d: ModuleDescriptor, a: string, b: string)
    requires OriginalTranslationPath(d, a) == OriginalTranslationPath(d, b)
    ensures a == b
  {
    var prefix := d.path + "locales/";
    var p := OriginalTranslationPath(d, a);
    assert p == prefix + a + "/" == prefix + b + "/";
    assert a == p[|prefix|..|p| - 1];
    assert b == p[|prefix|..|p| - 1];
  }

  /** The layouts `translationLocation` can name. */
  datatype Layout =
    | PerModule       // @module
    | AppOverloads    // @app-overloads
    | AppLocales      // @app-locales
    | VarOverloads    // @var-overloads
    | VarLocales      // @var-locales
    | AppRelative     // a location starting with @app:
    | Literal         // any other location, a path relative to the INI file

  /** Token dispatch: exact equality with a token, then the `@app:` prefix. */
  function ParseLayout(location: string): (l: Layout)
    ensures l == PerModule <==> location == "@module"
    ensures l == AppOverloads <==> location == "@app-overloads"
    ensures l == AppLocales <==> location == "@app-locales"
    ensures l == VarOverloads <==> location == "@var-overloads"
    ensures l == VarLocales <==> location == "@var-locales"
    ensures l == AppRelative ==> StartsWith(location, "@app:")
    ensures l == Literal ==> !StartsWith(location, "@app:")
  {
    if location == "@module" then PerModule
    else if location == "@app-overloads" then AppOverloads
    else if location == "@app-locales" then AppLocales
    else if location == "@var-overloads" then VarOverloads
    else if location == "@var-locales" then VarLocales
    else if StartsWith(location, "@app:") then AppRelative
    else Literal
  }

  /** The pattern of `@app-locales`, below the application directory. */
  const AppLocalesPattern: string := "app/locales/" + (":locale" + ("/" + (":module" + "/")))

  /** The directory pattern of a layout, before the placeholders are filled in. */
  function LayoutPattern(d: ModuleDescriptor, applicationPath: string, iniDir: string, normalize: Normalizer): string {
    match ParseLayout(d.translationLocation)
    case PerModule => d.path + "locales/:locale/"
    case AppOverloads => applicationPath + "app/overloads/:module/locales/:locale/"
    case AppLocales => applicationPath + AppLocalesPattern
    case VarOverloads => applicationPath + "var/overloads/:module/locales/:locale/"
    case VarLocales => applicationPath + "var/locales/:locale/:module/"
    case AppRelative => ReplaceAll(d.translationLocation, "@app:", applicationPath)
    case Literal => normalize(d.translationLocation, iniDir)
  }

  /** `str_replace([':locale', ':module'], [$locale, $module], $path)`: the two in turn. */
  function FillPlaceholders(pattern: string, locale: string, moduleName: string): string {
    ReplaceAll(ReplaceAll(pattern, ":locale", locale), ":module", moduleName)
  }

  /** The directory of the translated files of one locale. */
  function TranslationPath(d: ModuleDescriptor, applicationPath: string, iniDir: string, normalize: Normalizer,
                           moduleName: string, locale: string): string
  {
    FillPlaceholders(LayoutPattern(d, applicationPath, iniDir, normalize), locale, moduleName)
  }

  /**
   * With `@module`, and no colon in the module path or the locale, translated
   * files sit in the module's own locale directory.
   */
  lemma PerModuleIsOriginalPath(d: ModuleDescriptor, applicationPath: string, iniDir: string, normalize: Normalizer,
                                moduleName: string, locale: string)
    requires d.translationLocation == "@module"
    requires ':' !in d.path && ':' !in locale
    ensures TranslationPath(d, applicationPath, iniDir, normalize, moduleName, locale) == OriginalTranslationPath(d, locale)
  {
    var prefix := d.path + "locales/";
    assert ':' !in prefix;
    assert LayoutPattern(d, applicationPath, iniDir, normalize) == prefix + (":locale" + "/");
    ReplaceAllSkipsPrefix(prefix, ":locale" + "/", ":locale", locale);
    ReplaceAllAtNeedle("/", ":locale", locale);
    var once := prefix + (locale + "/");
    assert ':' !in once;
    assert once == OriginalTranslationPath(d, locale);
  }

  /** `:locale` then `:module` filled into a pattern that has one of each, in that order. */
  lemma FillLocaleThenModule(p: string, q: string, r: string, locale: string, moduleName: string)
    requires ':' !in p && ':' !in q && ':' !in r && ':' !in locale
    ensures FillPlaceholders(p + (":locale" + (q + (":module" + r))), locale, moduleName)
      == p + (locale + (q + (moduleName + r)))
  {
    assert ":locale"[0] == ':' == ":module"[0] && ":locale"[1] != ":module"[1];
    assert ':' !in ":module"[1..];
    ReplaceBothInTurn(p, q, r, ":locale", ":module", locale, moduleName);
  }

  /**
   * With `@app-locales` the directory is `<app>app/locales/<locale>/<module>/`,
   * when neither the application path nor the locale has a colon.
   */
  lemma AppLocalesPath(d: ModuleDescriptor, applicationPath: string, iniDir: string, normalize: Normalizer,
                       moduleName: string, locale: string)
    requires d.translationLocation == "@app-locales"
    requires ':' !in applicationPath && ':' !in locale
    ensures TranslationPath(d, applicationPath, iniDir, normalize, moduleName, locale)
      == applicationPath + "app/locales/" + locale + "/" + moduleName + "/"
  {
    var p := applicationPath + "app/locales/";
    assert ':' !in "app/locales/";
    assert LayoutPattern(d, applicationPath, iniDir, normalize) == p + (":locale" + ("/" + (":module" + "/")));
    FillLocaleThenModule(p, "/", "/", locale, moduleName);
    assert p + (locale + ("/" + (moduleName + "/"))) == applicationPath + "app/locales/" + locale + "/" + moduleName + "/";
  }

  /**
   * `:locale` is filled in first, so a `:module` inside the locale is replaced
   * by the module name as well.
   */
  lemma PlaceholderOrder(moduleName: string)
    ensures FillPlaceholders(":locale/", ":module", moduleName) == moduleName + "/"
  {
    ReplaceAllAtNeedle("/", ":locale", ":module");
    ReplaceAllAtNeedle("/", ":module", moduleName);
  }

  /**
   * With `@app:<rest>`, where `rest` has no `@` and the application path no
   * colon, the directory is the application path followed by `rest` with
   * its placeholders filled in.
   */
  lemma AppRelativePath(d: ModuleDescriptor, applicationPath: string, iniDir: string, normalize: Normalizer,
                        moduleName: string, locale: string, rest: string)
    requires d.translationLocation == "@app:" + rest
    requires '@' !in rest && ':' !in applicationPath
    ensures TranslationPath(d, applicationPath, iniDir, normalize, moduleName, locale)
      == applicationPath + FillPlaceholders(rest, locale, moduleName)
  {
    var location := d.translationLocation;
    assert location[1] == 'a' && location[4] == ':';
    assert location[..5] == "@app:";
    assert ParseLayout(location) == AppRelative;
    ReplaceAllAtNeedle(rest, "@app:", applicationPath);
    assert LayoutPattern(d, applicationPath, iniDir, normalize) == applicationPath + rest;
    ReplaceAllSkipsPrefix(applicationPath, rest, ":locale", locale);
    ReplaceAllSkipsPrefix(applicationPath, ReplaceAll(rest, ":locale", locale), ":module", moduleName);
  }

  /** `normalizePath(root, ..., getcwd()) . fileName`: where a command saves or reads its catalog. */
  function CatalogFile(normalize: Normalizer, root: string, cwd: string, fileName: string): (r: string)
    ensures StartsWith(r, normalize(root, cwd)) && EndsWith(r, fileName)
  {
    var r := normalize(root, cwd) + fileName;
    EndsWithAppended(normalize(root, cwd), fileName);
    r
  }

  // ---------------------------------------------------------------------------
  // Locale files of a module

  /** A directory entry `getModuleLocaleFiles` keeps. */
  predicate Kept(file: string, exclude: seq<string>) {
    EndsWith(file, Suffix) && file !in exclude
  }

  /** The entries the `readdir` loop keeps, in directory order. */
  function FilterEntries(entries: seq<string>, exclude: seq<string>): (r: seq<string>)
    ensures forall f :: f in r <==> f in entries && Kept(f, exclude)
    ensures |r| <= |entries|
  {
    if entries == [] then []
    else
      var last := entries[|entries| - 1];
      var init := entries[..|entries| - 1];
      var rest := FilterEntries(init, exclude);
      assert entries == init + [last];
      if Kept(last, exclude) then rest + [last] else rest
  }

  /** `sort` compares the file names themselves. */
  function NameKey(s: string): string { s }

  /** `sort($files)` applied to the kept entries. */
  function LocaleFiles(entries: seq<string>, exclude: seq<string>): seq<string> {
    SortBy(FilterEntries(entries, exclude), NameKey)
  }

  /** The module's locale files are sorted, and are exactly the kept entries. */
  lemma LocaleFilesSpec(entries: seq<string>, exclude: seq<string>)
    ensures SortedBy(LocaleFiles(entries, exclude), NameKey)
    ensures multiset(LocaleFiles(entries, exclude)) == multiset(FilterEntries(entries, exclude))
    ensures forall f :: f in LocaleFiles(entries, exclude) <==> f in entries && Kept(f, exclude)
  {
    var kept := FilterEntries(entries, exclude);
    SortBySorted(kept, NameKey);
    forall f ensures f in LocaleFiles(entries, exclude) <==> f in kept {
      assert f in LocaleFiles(entries, exclude) <==> f in multiset(LocaleFiles(entries, exclude));
    }
  }

  /**
   * A name written in `excludePropertiesFiles`, with or without the suffix
   * and with any whitespace next to its commas, is never among the module's
   * locale files.
   */
  lemma ExcludedNeverListed(section: map<string, string>, entries: seq<string>, i: nat, name: string)
    requires Present(section, "excludePropertiesFiles")
    requires var pieces := Split(section["excludePropertiesFiles"], ',');
      i < |pieces| && Stripped(pieces[i], name, i > 0, i < |pieces| - 1)
    ensures name !in LocaleFiles(entries, ExclusionList(section))
    ensures !EndsWith(name, Suffix) ==> name + Suffix !in LocaleFiles(entries, ExclusionList(section))
  {
    SplitListField(section["excludePropertiesFiles"], i, name);
    ExclusionListNames(section, i);
    assert NormalizeExcluded(name) in ExclusionList(section);
    LocaleFilesSpec(entries, ExclusionList(section));
  }

  /** The `readdir` loop followed by `sort`. */
  method CollectLocaleFiles(entries: seq<string>, exclude: seq<string>) returns (files: seq<string>)
    ensures files == LocaleFiles(entries, exclude)
    ensures SortedBy(files, NameKey)
    ensures forall f :: f in files <==> f in entries && EndsWith(f, Suffix) && f !in exclude
  {
    files := [];
    var i := 0;
    while i < |entries|
      invariant 0 <= i <= |entries|
      invariant files == FilterEntries(entries[..i], exclude)
    {
      var file := entries[i];
      assert entries[..i + 1][..i] == entries[..i];
      if EndsWith(file, Suffix) && file !in exclude {
        files := files + [file];
      }
      i := i + 1;
    }
    TakeWhole(entries);
    files := SortBy(files, NameKey);
    LocaleFilesSpec(entries, exclude);
  }

  /** `getModuleLocaleFiles` on a descriptor and directory listing. */
  function ModuleLocaleFiles(d: ModuleDescriptor, moduleName: string, mainLocale: string,
                             dirs: map<string, seq<string>>): (r: Result<seq<string>>)
    ensures r.Err? <==> OriginalTranslationPath(d, mainLocale) !in dirs
    ensures r.Err? ==> r.error == MissingLocaleDirectory(moduleName, OriginalTranslationPath(d, mainLocale))
    ensures r.Ok? ==> r.value == LocaleFiles(dirs[OriginalTranslationPath(d, mainLocale)], d.excludePropertiesFiles)
  {
    var path := OriginalTranslationPath(d, mainLocale);
    if path !in dirs then Err(MissingLocaleDirectory(moduleName, path))
    else Ok(LocaleFiles(dirs[path], d.excludePropertiesFiles))
  }

  // ---------------------------------------------------------------------------
  // The configuration object

  /** The cache after a lookup of `moduleName`: only successes are stored. */
  function CacheAfter(cache: map<string, ModuleDescriptor>, moduleName: string, r: Result<ModuleDescriptor>): map<string, ModuleDescriptor> {
    if r.Ok? then cache[moduleName := r.value] else cache
  }

  /**
   * The directory `getModuleOriginalMainTranslationPath` and
   * `getModuleLocaleFiles` resolve uses the global main locale, not the
   * locale the module's own section names.
   */
  lemma MainPathIgnoresModuleLocale(ini: Ini, s: Settings, normalize: Normalizer, moduleName: string)
    requires DescribeModule(ini, s, normalize, moduleName).Ok?
    requires DescribeModule(ini, s, normalize, moduleName).value.mainLocale != s.mainLocale
    ensures var d := DescribeModule(ini, s, normalize, moduleName).value;
      OriginalTranslationPath(d, s.mainLocale) != OriginalTranslationPath(d, d.mainLocale)
  {
    var d := DescribeModule(ini, s, normalize, moduleName).value;
    if OriginalTranslationPath(d, s.mainLocale) == OriginalTranslationPath(d, d.mainLocale) {
      OriginalTranslationPathInjective(d, s.mainLocale, d.mainLocale);
    }
  }

  class LocalesConfig {
    const ini: Ini
    const iniDir: string
    const normalize: Normalizer
    const applicationPath: string
    const propertiesFileHeader: string
    var mainLocale: string
    var translationLocation: string
    var projectId: string
    var moduleProperties: map<string, ModuleDescriptor>

    /** The current global settings. */
    function Current(): Settings
      reads this
    {
      Settings(applicationPath, projectId, propertiesFileHeader, mainLocale, translationLocation)
    }

    /** The descriptor `getModuleProperties` would build now. */
    function Describe(moduleName: string): Result<ModuleDescriptor>
      reads this
    {
      DescribeModule(ini, Current(), normalize, moduleName)
    }

    /** Every cached descriptor is the one the current settings give. */
    ghost predicate Valid()
      reads this
    {
      forall m :: m in moduleProperties ==> Describe(m) == Ok(moduleProperties[m])
    }

    constructor (ini: Ini, iniDir: string, normalize: Normalizer)
      ensures this.ini == ini && this.iniDir == iniDir && this.normalize == normalize
      ensures Current() == InitialSettings(ini, iniDir, normalize)
      ensures moduleProperties == map[]
      ensures Valid()
    {
      var s := InitialSettings(ini, iniDir, normalize);
      this.ini := ini;
      this.iniDir := iniDir;
      this.normalize := normalize;
      applicationPath := s.applicationPath;
      projectId := s.projectId;
      propertiesFileHeader := s.propertiesFileHeader;
      mainLocale := s.mainLocale;
      translationLocation := s.translationLocation;
      moduleProperties := map[];
    }

    method SetMainLocale(locale: string)
      modifies this
      ensures Current() == old(Current()).(mainLocale := locale)
      ensures moduleProperties == map[]
      ensures Valid()
    {
      mainLocale := locale;
      moduleProperties := map[];
    }

    method SetTranslationLocation(path: string)
      modifies this
      ensures Current() == old(Current()).(translationLocation := path)
      ensures moduleProperties == map[]
      ensures Valid()
    {
      translationLocation := path;
      moduleProperties := map[];
    }

    /** The project id plays no part in a descriptor, so the cache stays. */
    method SetProjectId(id: string)
      requires Valid()
      modifies this
      ensures Current() == old(Current()).(projectId := id)
      ensures moduleProperties == old(moduleProperties)
      ensures Valid()
    {
      projectId := id;
    }

    method GetModuleProperties(moduleName: string) returns (r: Result<ModuleDescriptor>)
      requires Valid()
      modifies this
      ensures r == Describe(moduleName)
      ensures old(moduleName in moduleProperties) ==> r == Ok(old(moduleProperties[moduleName]))
      ensures Current() == old(Current())
      ensures moduleProperties == CacheAfter(old(moduleProperties), moduleName, r)
      ensures Valid()
    {
      if moduleName in moduleProperties {
        r := Ok(moduleProperties[moduleName]);
        assert moduleProperties[moduleName := r.value] == moduleProperties;
        return;
      }
      r := DescribeModule(ini, Current(), normalize, moduleName);
      if r.Ok? {
        moduleProperties := moduleProperties[moduleName := r.value];
      }
    }

    method GetModulePath(moduleName: string) returns (r: Result<string>)
      requires Valid()
      modifies this
      ensures r.Ok? <==> Describe(moduleName).Ok?
      ensures r.Ok? ==> r.value == Describe(moduleName).value.path
      ensures r.Err? ==> r.error == Describe(moduleName).error
      ensures Current() == old(Current())
      ensures moduleProperties == CacheAfter(old(moduleProperties), moduleName, Describe(moduleName))
      ensures Valid()
    {
      var d :- GetModuleProperties(moduleName);
      r := Ok(d.path);
    }

    method GetModuleOriginalTranslationPath(moduleName: string, locale: string) returns (r: Result<string>)
      requires Valid()
      modifies this
      ensures r.Ok? <==> Describe(moduleName).Ok?
      ensures r.Ok? ==> r.value == OriginalTranslationPath(Describe(moduleName).value, locale)
      ensures r.Err? ==> r.error == Describe(moduleName).error
      ensures Current() == old(Current())
      ensures moduleProperties == CacheAfter(old(moduleProperties), moduleName, Describe(moduleName))
      ensures Valid()
    {
      var d :- GetModuleProperties(moduleName);
      r := Ok(d.path + "locales/" + locale + "/");
    }

    /** Uses the global main locale, not the module's. */
    method GetModuleOriginalMainTranslationPath(moduleName: string) returns (r: Result<string>)
      requires Valid()
      modifies this
      ensures r.Ok? <==> Describe(moduleName).Ok?
      ensures r.Ok? ==> r.value == OriginalTranslationPath(Describe(moduleName).value, mainLocale)
      ensures r.Err? ==> r.error == Describe(moduleName).error
      ensures Current() == old(Current())
      ensures moduleProperties == CacheAfter(old(moduleProperties), moduleName, Describe(moduleName))
      ensures Valid()
    {
      var d :- GetModuleProperties(moduleName);
      r := Ok(d.path + "locales/" + mainLocale + "/");
    }

    method GetModuleTranslationPath(moduleName: string, locale: string) returns (r: Result<string>)
      requires Valid()
      modifies this
      ensures r.Ok? <==> Describe(moduleName).Ok?
      ensures r.Ok? ==> r.value == TranslationPath(Describe(moduleName).value, applicationPath, iniDir, normalize, moduleName, locale)
      ensures r.Err? ==> r.error == Describe(moduleName).error
      ensures Current() == old(Current())
      ensures moduleProperties == CacheAfter(old(moduleProperties), moduleName, Describe(moduleName))
      ensures Valid()
    {
      var d :- GetModuleProperties(moduleName);
      var location := d.translationLocation;
      var path;
      if location == "@module" {
        path := d.path + "locales/:locale/";
      } else if location == "@app-overloads" {
        path := applicationPath + "app/overloads/:module/locales/:locale/";
      } else if location == "@app-locales" {
        path := applicationPath + AppLocalesPattern;
      } else if location == "@var-overloads" {
        path := applicationPath + "var/overloads/:module/locales/:locale/";
      } else if location == "@var-locales" {
        path := applicationPath + "var/locales/:locale/:module/";
      } else if StartsWith(location, "@app:") {
        path := ReplaceAll(location, "@app:", applicationPath);
      } else {
        path := normalize(location, iniDir);
      }
      path := ReplaceAll(path, ":locale", locale);
      path := ReplaceAll(path, ":module", moduleName);
      r := Ok(path);
    }

    /** Lists the global main locale's directory, not the module's. */
    method GetModuleLocaleFiles(moduleName: string, dirs: map<string, seq<string>>) returns (r: Result<seq<string>>)
      requires Valid()
      modifies this
      ensures r.Ok? ==> Describe(moduleName).Ok?
      ensures Describe(moduleName).Err? ==> r == Err(Describe(moduleName).error)
      ensures Describe(moduleName).Ok? ==> r == ModuleLocaleFiles(Describe(moduleName).value, moduleName, mainLocale, dirs)
      ensures Current() == old(Current())
      ensures moduleProperties == CacheAfter(old(moduleProperties), moduleName, Describe(moduleName))
      ensures Valid()
    {
      var d :- GetModuleProperties(moduleName);
      var path := d.path + "locales/" + mainLocale + "/";
      if path !in dirs {
        return Err(MissingLocaleDirectory(moduleName, path));
      }
      var files := CollectLocaleFiles(dirs[path], d.excludePropertiesFiles);
      r := Ok(files);
    }
  }
}
