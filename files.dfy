/**
 * The slice of the file system the commands touch: directory listings, parsed
 * properties files and gettext catalogs, each found by its full path. Reading
 * a properties file yields its key/value pairs in file order; reading a PO
 * file yields its catalog.
 */
module Files {
  import opened Outcomes
  import opened Catalog

  /** A parsed properties file: its keys and values, in file order. */
  type Properties = seq<(string, string)>

  /** `$properties[$key]`: the value of the key, or None (PHP null). */
  function Lookup(p: Properties, key: string): (r: Option<string>)
    ensures r.Some? ==> (key, r.value) in p
    ensures r.None? <==> forall i :: 0 <= i < |p| ==> p[i].0 != key
  {
    if p == [] then None
    else if p[0].0 == key then Some(p[0].1)
    else
      var r := Lookup(p[1..], key);
      assert forall i :: 1 <= i < |p| ==> p[i] == p[1..][i - 1];
      r
  }

  /** No key occurs twice, as in every file the parser produces. */
  ghost predicate UniqueKeys(p: Properties) {
    forall i, j :: 0 <= i < j < |p| ==> p[i].0 != p[j].0
  }

  /** In a file without repeated keys, each key looks up its own value. */
  lemma {:induction false} LookupUnique(p: Properties, i: nat)
    requires UniqueKeys(p) && i < |p|
    ensures Lookup(p, p[i].0) == Some(p[i].1)
  {
    if i > 0 {
      assert p[0].0 != p[i].0;
      assert p[1..][i - 1] == p[i];
      LookupUnique(p[1..], i - 1);
    }
  }

  /** The options the property writer is given. */
  datatype WriterOptions = WriterOptions(
    lineLength: nat,
    spaceAroundEqual: bool,
    removeTrailingSpace: bool,
    cutOnlyAtSpace: bool,
    headerComment: string)

  /** A properties file on disk, with the writer options it was last saved with. */
  datatype PropertyFile = PropertyFile(entries: Properties, writtenWith: Option<WriterOptions>)

  /** `Directory::create` on a listing: an existing directory is left as it is. */
  function WithDirectory(dirs: map<string, seq<string>>, path: string): (r: map<string, seq<string>>)
    ensures path in r && r.Keys == dirs.Keys + {path}
    ensures forall p :: p in dirs ==> p in r && r[p] == dirs[p]
  {
    if path in dirs then dirs else dirs[path := []]
  }

  class FileSystem {
    /** Each existing directory with the names `readdir` returns, in that order. */
    var dirs: map<string, seq<string>>
    /** Each existing properties file. */
    var properties: map<string, PropertyFile>
    /** Each readable PO or POT file. */
    var catalogs: map<string, Catalog>

    constructor (dirs: map<string, seq<string>>, properties: map<string, PropertyFile>, catalogs: map<string, Catalog>)
      ensures this.dirs == dirs && this.properties == properties && this.catalogs == catalogs
    {
      this.dirs := dirs;
      this.properties := properties;
      this.catalogs := catalogs;
    }

    method CreateDirectory(path: string)
      modifies this
      ensures dirs == WithDirectory(old(dirs), path)
      ensures properties == old(properties) && catalogs == old(catalogs)
    {
      dirs := WithDirectory(dirs, path);
    }

    method WriteProperties(path: string, entries: Properties, options: WriterOptions)
      modifies this
      ensures properties == old(properties)[path := PropertyFile(entries, Some(options))]
      ensures dirs == old(dirs) && catalogs == old(catalogs)
    {
      properties := properties[path := PropertyFile(entries, Some(options))];
    }

    method Unlink(path: string)
      modifies this
      ensures properties == old(properties) - {path}
      ensures dirs == old(dirs) && catalogs == old(catalogs)
    {
      properties := properties - {path};
    }

    method WriteCatalog(path: string, c: Catalog)
      modifies this
      ensures catalogs == old(catalogs)[path := c]
      ensures dirs == old(dirs) && properties == old(properties)
    {
      catalogs := catalogs[path := c];
    }
  }
}
