/**
 * The message context that joins a property key to a catalog entry:
 * `<module>~<fileId>.<key>`, where the file id is the file name with every
 * `.UTF-8.properties` removed. All three converters build it the same way.
 */
module Identity {
  import opened Strings

  /** `str_replace('.UTF-8.properties', '', $f)`. */
  function FileId(file: string): string {
    ReplaceAll(file, Suffix, "")
  }

  function ContextKey(moduleName: string, file: string, key: string): (r: string)
    ensures StartsWith(r, moduleName + "~")
    ensures EndsWith(r, "." + key)
  {
    var r := moduleName + "~" + FileId(file) + "." + key;
    assert r == moduleName + "~" + (FileId(file) + "." + key);
    assert r == moduleName + "~" + FileId(file) + ("." + key);
    r
  }

  /** Within one module and file, the context determines the key. */
  lemma ContextKeyInjective(moduleName: string, file: string, k1: string, k2: string)
    requires ContextKey(moduleName, file, k1) == ContextKey(moduleName, file, k2)
    ensures k1 == k2
  {
    var prefix := moduleName + "~" + FileId(file) + ".";
    assert ContextKey(moduleName, file, k1) == prefix + k1;
    assert ContextKey(moduleName, file, k2) == prefix + k2;
    assert k1 == (prefix + k1)[|prefix|..];
    assert k2 == (prefix + k2)[|prefix|..];
  }

  /** The id of `name.UTF-8.properties` is `name` when `name` has no dot. */
  lemma FileIdOfPlainName(name: string)
    requires '.' !in name
    ensures FileId(name + Suffix) == name
  {
    ReplaceAllSkipsPrefix(name, Suffix, Suffix, "");
    ReplaceAllAtNeedle([], Suffix, "");
    assert Suffix + [] == Suffix;
  }

  /** The id of `a.b.UTF-8.properties` is `a.b` when neither part has a dot. */
  lemma {:induction false} FileIdOfDottedName(a: string, b: string)
    requires '.' !in a && '.' !in b && b != [] && b[0] != 'U'
    ensures FileId(a + "." + b + Suffix) == a + "." + b
  {
    assert Suffix[0] == '.' && Suffix[1] == 'U';
    ReplaceAllKeepsLoneMark(a, b, Suffix, "");
    assert a + "." + b + Suffix == a + ([Suffix[0]] + b + Suffix);
    assert a + ([Suffix[0]] + b + "") == a + "." + b;
  }

  /**
   * Contexts are not unique across the files of a module: file `a.b` with key
   * `c` and file `a` with key `b.c` share the context `<module>~a.b.c`.
   */
  lemma ContextKeysCollideAcrossFiles(moduleName: string, a: string, b: string, c: string)
    requires '.' !in a && '.' !in b && b != [] && b[0] != 'U'
    ensures a + "." + b + Suffix != a + Suffix
    ensures ContextKey(moduleName, a + "." + b + Suffix, c) == ContextKey(moduleName, a + Suffix, b + "." + c)
  {
    FileIdOfDottedName(a, b);
    FileIdOfPlainName(a);
    assert |a + "." + b + Suffix| != |a + Suffix|;
  }
}
