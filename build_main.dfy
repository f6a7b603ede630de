/**
 * The file each format of a build is written to (`getMain`): the output
 * base path loses its build extension and takes the suffix of a template
 * file name chosen per format from the manifest, and the `"exports"`
 * field is searched by `walkExports` for the modern template.
 */
module BuildMain {
  import opened Wrappers
  import opened Seqs
  import opened JsValues
  import opened Paths

  // ---------------------------------------------------------------------------
  // walkExports

  /**
   * The key `walkExports` descends into on an object: the first of `'.'`,
   * `import`, `module` holding a truthy value, then `default` when it is
   * allowed; `None` when the descent would reach a falsy value.
   */
  function WalkKey(v: Value, includeDefault: bool): (k: Option<string>)
    requires v.Obj?
    ensures k.Some? ==> k.value in v.fields && Truthy(v.fields[k.value])
    ensures k.Some? ==> k.value == "." || k.value == "import" || k.value == "module"
                        || (includeDefault && k.value == "default")
    ensures Truthy(Get(v, ".")) ==> k == Some(".")
    ensures !Truthy(Get(v, ".")) && Truthy(Get(v, "import")) ==> k == Some("import")
    ensures !Truthy(Get(v, ".")) && !Truthy(Get(v, "import")) && Truthy(Get(v, "module")) ==> k == Some("module")
    ensures k.None? <==>
      !Truthy(Get(v, ".")) && !Truthy(Get(v, "import")) && !Truthy(Get(v, "module"))
      && !(includeDefault && Truthy(Get(v, "default")))
  {
    if Truthy(Get(v, ".")) then Some(".")
    else if Truthy(Get(v, "import")) then Some("import")
    else if Truthy(Get(v, "module")) then Some("module")
    else if includeDefault && Truthy(Get(v, "default")) then Some("default")
    else None
  }

  /**
   * `walkExports(exports, includeDefault)`: `null` for a falsy value, the
   * string itself for a string, and otherwise the walk of the first truthy
   * of `'.'`, `import` and `module`, falling back to `default` only when
   * `includeDefault` is set.
   */
  function WalkExports(v: Value, includeDefault: bool): (r: Option<string>)
    ensures r.Some? ==> r.value != ""
    ensures !Truthy(v) ==> r == None
    ensures v.Str? && v.s != "" ==> r == Some(v.s)
    ensures v.Obj? && WalkKey(v, includeDefault).None? ==> r == None
    ensures v.Obj? && WalkKey(v, includeDefault).Some? ==>
      r == WalkExports(v.fields[WalkKey(v, includeDefault).value], includeDefault)
    decreases v
  {
    if !Truthy(v) then None
    else if v.Str? then Some(v.s)
    // any other non-object has none of the keys: the walk reaches `undefined`
    else if !v.Obj? then None
    else
      match WalkKey(v, includeDefault)
      case None => None
      case Some(k) => WalkExports(v.fields[k], includeDefault)
  }

  predicate IsExportsKey(s: Step, includeDefault: bool) {
    s.Key? && (s.k == "." || s.k == "import" || s.k == "module" || (includeDefault && s.k == "default"))
  }

  /**
   * A found entry is a string leaf of the `"exports"` tree, reached through
   * the keys `.`, `import`, `module`, and `default` only when it is allowed.
   */
  lemma {:induction false} WalkExportsLeaf(v: Value, includeDefault: bool) returns (path: seq<Step>)
    requires WalkExports(v, includeDefault).Some?
    ensures Lookup(v, path) == Str(WalkExports(v, includeDefault).value)
    ensures forall i :: 0 <= i < |path| ==> IsExportsKey(path[i], includeDefault)
    decreases v
  {
    if v.Str? {
      path := [];
    } else {
      var k := WalkKey(v, includeDefault).value;
      var rest := WalkExportsLeaf(v.fields[k], includeDefault);
      path := [Key(k)] + rest;
      assert path[1..] == rest;
    }
  }

  /** Allowing `default` never changes an entry that was found without it. */
  lemma {:induction false} WalkExportsDefaultExtends(v: Value)
    requires WalkExports(v, false).Some?
    ensures WalkExports(v, true) == WalkExports(v, false)
    decreases v
  {
    if !v.Str? {
      var k := WalkKey(v, false).value;
      assert WalkKey(v, true) == Some(k);
      WalkExportsDefaultExtends(v.fields[k]);
    }
  }

  // ---------------------------------------------------------------------------
  // BUILD_EXTENSIONS

  /** `t` is exactly `\.[cm]?[tj]sx?`. */
  predicate IsScriptExt(t: string)
    ensures IsScriptExt(t) ==> '/' !in t
    ensures IsScriptExt(t) ==> 3 <= |t| <= 5 && t[0] == '.' && '.' !in t[1..]
  {
    var core := if |t| > 0 && t[|t| - 1] == 'x' then t[..|t| - 1] else t;
    (|core| == 3 && core[0] == '.' && (core[1] == 't' || core[1] == 'j') && core[2] == 's')
    || (|core| == 4 && core[0] == '.' && (core[1] == 'c' || core[1] == 'm')
        && (core[2] == 't' || core[2] == 'j') && core[3] == 's')
  }

  /** The length of the script extension ending `s`, or 0. At most one length fits. */
  function ScriptExtLen(s: string): (n: nat)
    ensures n <= |s|
    ensures n > 0 ==> IsScriptExt(s[|s| - n..])
    ensures n == 0 ==> (|s| >= 3 ==> !IsScriptExt(s[|s| - 3..])) && (|s| >= 4 ==> !IsScriptExt(s[|s| - 4..]))
                       && (|s| >= 5 ==> !IsScriptExt(s[|s| - 5..]))
    ensures '/' !in s[|s| - n..]
  {
    if |s| >= 5 && IsScriptExt(s[|s| - 5..]) then 5
    else if |s| >= 4 && IsScriptExt(s[|s| - 4..]) then 4
    else if |s| >= 3 && IsScriptExt(s[|s| - 3..]) then 3
    else 0
  }

  /** The length of the `.umd`, `.cjs`, `.es` or `.m` ending `s`, or 0. */
  function GroupLen(s: string): (n: nat)
    ensures n <= |s|
    ensures '/' !in s[|s| - n..]
  {
    if EndsWith(s, ".umd") || EndsWith(s, ".cjs") then 4
    else if EndsWith(s, ".es") then 3
    else if EndsWith(s, ".m") then 2
    else 0
  }

  /** The length of the match of `BUILD_EXTENSIONS` at the end of `s`, or 0. */
  function BuildExtLen(s: string): (n: nat)
    ensures n <= |s|
    ensures '/' !in s[|s| - n..]
  {
    var e := ScriptExtLen(s);
    if e == 0 then 0
    else
      var pre := s[..|s| - e];
      var g := GroupLen(pre);
      SlashFreeSuffixes(s, e, g);
      e + g
  }

  /** Two separator-free endings, one before the other, make a separator-free ending. */
  lemma SlashFreeSuffixes(s: string, e: nat, g: nat)
    requires e <= |s| && g <= |s| - e
    requires '/' !in s[|s| - e..] && '/' !in s[..|s| - e][|s| - e - g..]
    ensures '/' !in s[|s| - (e + g)..]
  {
    var pre := s[..|s| - e];
    assert s[|s| - (e + g)..] == pre[|pre| - g..] + s[|s| - e..];
  }

  /** `s.replace(BUILD_EXTENSIONS, '')`. */
  function StripBuildExt(s: string): (r: string)
    ensures StartsWith(s, r)
    ensures forall i :: |r| <= i < |s| ==> s[i] != '/'
    ensures IsAbsolute(s) ==> IsAbsolute(r)
    ensures ScriptExtLen(s) == 0 ==> r == s
  {
    var n := BuildExtLen(s);
    var tail := s[|s| - n..];
    assert forall i :: |s| - n <= i < |s| ==> s[i] == tail[i - (|s| - n)];
    s[..|s| - n]
  }

  /** Text ending in a script extension: that extension is the one found. */
  lemma ScriptExtLenOf(b: string, e: string)
    requires IsScriptExt(e)
    ensures ScriptExtLen(b + e) == |e|
  {
    var s := b + e;
    assert s[|s| - |e|..] == e;

  }

  /** A script extension with no group before it is removed, and only it. */
  lemma StripScriptExt(b: string, e: string)
    requires IsScriptExt(e) && GroupLen(b) == 0
    ensures StripBuildExt(b + e) == b
  {
    var s := b + e;
    ScriptExtLenOf(b, e);
    assert s[..|s| - |e|] == b;
  }

  /** One of `.umd`, `.cjs`, `.es`, `.m`: the group `BUILD_EXTENSIONS` removes before the script extension. */
  predicate IsGroup(g: string) {
    g == ".umd" || g == ".cjs" || g == ".es" || g == ".m"
  }

  /** A group ending the text is the group found. */
  lemma GroupLenOf(b: string, g: string)
    requires IsGroup(g)
    ensures GroupLen(b + g) == |g|
  {
    var s := b + g;
    assert s[|s| - |g|..] == g;
    LastTwo(s, g);
    if g == ".es" || g == ".m" {
      if EndsWith(s, ".umd") {
        LastTwo(s, ".umd");
        assert false;
      }
      if EndsWith(s, ".cjs") {
        LastTwo(s, ".cjs");
        assert false;
      }
    }
    if g == ".m" && EndsWith(s, ".es") {
      LastTwo(s, ".es");
      assert false;
    }
  }

  /** Text ending in `p` ends in the last two characters of `p`. */
  lemma LastTwo(s: string, p: string)
    requires EndsWith(s, p) && |p| >= 2
    ensures s[|s| - 1] == p[|p| - 1] && s[|s| - 2] == p[|p| - 2]
  {
    assert s[|s| - |p|..][|p| - 1] == s[|s| - 1];
    assert s[|s| - |p|..][|p| - 2] == s[|s| - 2];
  }

  /** A group and a script extension at the end are removed together, and nothing else. */
  lemma StripGroupExt(b: string, g: string, e: string)
    requires IsGroup(g) && IsScriptExt(e)
    ensures StripBuildExt(b + g + e) == b
  {
    var s := b + g + e;
    ScriptExtLenOf(b + g, e);
    assert s[..|s| - |e|] == b + g;
    GroupLenOf(b, g);
    assert s[..|s| - (|e| + |g|)] == b;
  }

  /** `entry` matches `([\\/])index` followed by `BUILD_EXTENSIONS` at its end. */
  predicate IsIndexEntry(entry: string) {
    var e := ScriptExtLen(entry);
    e > 0 && (IndexEndsAt(entry, |entry| - e)
              || (GroupLen(entry[..|entry| - e]) > 0
                  && IndexEndsAt(entry, |entry| - e - GroupLen(entry[..|entry| - e]))))
  }

  /** `s[..n]` ends in a separator (`/` or `\`) followed by `index`. */
  predicate IndexEndsAt(s: string, n: int) {
    6 <= n <= |s| && (s[n - 6] == '/' || s[n - 6] == '\\') && s[n - 5..n] == "index"
  }

  // ---------------------------------------------------------------------------
  // templates

  /** The manifest fields `getMain` reads; an empty string stands for an absent field. */
  datatype Manifest = Manifest(
    pkgModule: string, jsnextMain: string, exports: Value, syntaxEsmodules: string,
    esmodule: string, cjsMain: string, umdMain: string, unpkg: string, typeModule: bool)

  function EsTemplate(pkg: Manifest): string {
    if pkg.pkgModule != "" && !Contains(pkg.pkgModule, "src/") then pkg.pkgModule
    else if pkg.jsnextMain != "" then pkg.jsnextMain
    else if pkg.typeModule then "x.esm.js" else "x.esm.mjs"
  }

  function ModernTemplate(pkg: Manifest): string {
    var walked := if Truthy(pkg.exports) then WalkExports(pkg.exports, pkg.typeModule) else None;
    if walked.Some? then walked.value
    else if pkg.syntaxEsmodules != "" then pkg.syntaxEsmodules
    else if pkg.esmodule != "" then pkg.esmodule
    else if pkg.typeModule then "x.modern.js" else "x.modern.mjs"
  }

  function CjsTemplate(pkg: Manifest): string {
    if pkg.cjsMain != "" then pkg.cjsMain else if pkg.typeModule then "x.cjs" else "x.js"
  }

  function UmdTemplate(pkg: Manifest): string {
    if pkg.umdMain != "" then pkg.umdMain else if pkg.unpkg != "" then pkg.unpkg else "x.umd.js"
  }

  /** The template of a format; a format without one of its own uses the `cjs` template. */
  function Template(pkg: Manifest, format: string): (t: string)
    ensures format !in {"es", "modern", "umd"} ==> t == CjsTemplate(pkg)
  {
    if format == "es" then EsTemplate(pkg)
    else if format == "modern" then ModernTemplate(pkg)
    else if format == "umd" then UmdTemplate(pkg)
    else CjsTemplate(pkg)
  }

  /** `b.replace(/^[^.]+/, '')`: the base name from its first dot on. */
  function FromFirstDot(b: string): (r: string)
    ensures EndsWith(b, r)
    ensures r == "" || r[0] == '.'
    ensures '.' !in b[..|b| - |r|]
    ensures r == "" <==> '.' !in b
  {
    if |b| == 0 || b[0] == '.' then b else FromFirstDot(b[1..])
  }

  /** `replaceName(fileNameFormat, fileName)`: the template's suffix on `fileName`, in the template's directory. */
  function ReplaceName(fileNameFormat: string, fileName: string): string {
    Resolve(Dirname(fileNameFormat), fileName + FromFirstDot(Basename(fileNameFormat)))
  }

  /** The output base for one entry: in multi-entry mode a non-index entry keeps its own name. */
  function MainBase(output: string, multipleEntries: bool, entry: string): string {
    if multipleEntries then
      Resolve(Dirname(output), Basename(if IsIndexEntry(entry) then output else entry))
    else output
  }

  /**
   * `getMain`: with `--pkg-main` off the output path itself; otherwise the
   * output base without its build extension, carrying the suffix of the
   * format's template.
   */
  function GetMain(output: string, pkgMain: bool, multipleEntries: bool, entry: string,
                   format: string, pkg: Manifest): (r: string)
    ensures !pkgMain ==> r == output
  {
    if !pkgMain then output
    else ReplaceName(Template(pkg, format), StripBuildExt(MainBase(output, multipleEntries, entry)))
  }

  /**
   * For an absolute output path, the template's directory is ignored: the
   * result is the stripped output base followed by the template's suffix,
   * and it lies in the output's directory.
   */
  lemma GetMainInOutputDir(output: string, multipleEntries: bool, entry: string, format: string, pkg: Manifest)
    requires IsNormalized(output)
    ensures var r := GetMain(output, true, multipleEntries, entry, format, pkg);
      r == StripBuildExt(MainBase(output, multipleEntries, entry)) + FromFirstDot(Basename(Template(pkg, format)))
      && Dirname(r) == Dirname(output)
  {
    var base := MainBase(output, multipleEntries, entry);
    MainBaseDir(output, multipleEntries, entry);
    var suffix := GetMainSuffix(output, multipleEntries, entry, format, pkg);
    DirnameKept(base, StripBuildExt(base), suffix);
  }

  /** The template's directory is ignored: the result is the stripped output base and the template's suffix. */
  lemma GetMainSuffix(output: string, multipleEntries: bool, entry: string, format: string, pkg: Manifest)
    returns (suffix: string)
    requires IsAbsolute(MainBase(output, multipleEntries, entry))
    ensures suffix == FromFirstDot(Basename(Template(pkg, format)))
    ensures '/' !in suffix
    ensures GetMain(output, true, multipleEntries, entry, format, pkg)
         == StripBuildExt(MainBase(output, multipleEntries, entry)) + suffix
  {
    var m := StripBuildExt(MainBase(output, multipleEntries, entry));
    var t := Template(pkg, format);
    var b := Basename(t);
    suffix := FromFirstDot(b);
    SuffixSlashFree(b);
    assert IsAbsolute(m + suffix) by {
      assert (m + suffix)[0] == m[0];
    }
    assert ReplaceName(t, m) == Resolve(Dirname(t), m + suffix);
  }

  /** What follows the first dot of a separator-free name is separator-free. */
  lemma SuffixSlashFree(b: string)
    requires '/' !in b
    ensures '/' !in FromFirstDot(b)
  {
    var suffix := FromFirstDot(b);
    forall i | 0 <= i < |suffix| ensures suffix[i] != '/' {
      assert suffix[i] == b[|b| - |suffix| + i];
    }
  }

  /**
   * Every output base is an absolute path in the output's directory; with
   * several entries its file name is the output's for an index entry and
   * the entry's own otherwise.
   */
  lemma MainBaseDir(output: string, multipleEntries: bool, entry: string)
    requires IsNormalized(output)
    ensures IsAbsolute(MainBase(output, multipleEntries, entry))
    ensures Dirname(MainBase(output, multipleEntries, entry)) == Dirname(output)
    ensures multipleEntries ==> Basename(MainBase(output, multipleEntries, entry))
                                == Basename(if IsIndexEntry(entry) then output else entry)
    ensures !multipleEntries ==> MainBase(output, multipleEntries, entry) == output
  {
    if multipleEntries {
      var name := Basename(if IsIndexEntry(entry) then output else entry);
      DirnameNormalized(output);
      DirnameOfChild(Dirname(output), name);
      BasenameOfChild(Dirname(output), name);
    }
  }

  /** Cutting separator-free text off an absolute path and appending other such text keeps its directory. */
  lemma DirnameKept(base: string, m: string, suffix: string)
    requires IsAbsolute(m) && StartsWith(base, m)
    requires forall i :: |m| <= i < |base| ==> base[i] != '/'
    requires '/' !in suffix
    ensures Dirname(m + suffix) == Dirname(base)
  {
    LastSlashAppend(m, suffix);
    assert m == base[..|m|];
    LastSlashPrefix(base, |m|);
    var k := LastSlash(base);
    assert 0 <= k < |m|;
    if k > 0 {
      assert (m + suffix)[..k] == base[..k];
    }
  }

  /**
   * `.mjs` warning (`format === 'es' && !pkg.module && name.endsWith('.mjs')`):
   * it fires on the `es` output file's base name.
   */
  predicate MjsWarning(format: string, pkg: Manifest, absMain: string) {
    format == "es" && pkg.pkgModule == "" && EndsWith(Basename(absMain), ".mjs")
  }

  /**
   * Without `module` and `jsnext:main` fields, the `es` build warns about
   * `.mjs` exactly when the package is not of type `module`.
   */
  lemma MjsWarningUnlessTypeModule(output: string, multipleEntries: bool, entry: string, pkg: Manifest)
    requires IsNormalized(output)
    requires pkg.pkgModule == "" && pkg.jsnextMain == ""
    ensures MjsWarning("es", pkg, GetMain(output, true, multipleEntries, entry, "es", pkg)) <==> !pkg.typeModule
  {
    MainBaseDir(output, multipleEntries, entry);
    var m := StripBuildExt(MainBase(output, multipleEntries, entry));
    var suffix := EsSuffix(pkg);
    var suffix' := GetMainSuffix(output, multipleEntries, entry, "es", pkg);
    assert Template(pkg, "es") == EsTemplate(pkg);
    assert suffix' == suffix;
    var b := BasenameWithSuffix(m, suffix);
    EndsWithWithin(b, suffix, ".mjs");
  }

  lemma EndsWithWithin(b: string, suffix: string, x: string)
    requires EndsWith(b, suffix) && |x| <= |suffix|
    ensures EndsWith(b, x) <==> EndsWith(suffix, x)
  {
    assert b[|b| - |x|..] == suffix[|suffix| - |x|..];
  }

  /** The suffix the default `es` template carries. */
  lemma EsSuffix(pkg: Manifest) returns (suffix: string)
    requires pkg.pkgModule == "" && pkg.jsnextMain == ""
    ensures suffix == FromFirstDot(Basename(EsTemplate(pkg)))
    ensures suffix == if pkg.typeModule then ".esm.js" else ".esm.mjs"
    ensures EndsWith(suffix, ".mjs") <==> !pkg.typeModule
  {
    suffix := if pkg.typeModule then ".esm.js" else ".esm.mjs";
    assert EsTemplate(pkg) == "x" + suffix;
    DotSuffix(suffix);
    EsmEndings();
  }

  /** Of the two default `es` suffixes only `.esm.mjs` ends in `.mjs`. */
  lemma EsmEndings()
    ensures !EndsWith(".esm.js", ".mjs")
    ensures EndsWith(".esm.mjs", ".mjs")
  {
    assert ".esm.js"[3] == 'm';
    assert ".esm.mjs"[4..] == ".mjs";
  }

  /** The default templates `x.<suffix>`: the suffix is what follows the first dot of the base name. */
  lemma DotSuffix(suffix: string)
    requires |suffix| > 0 && suffix[0] == '.' && '/' !in suffix
    ensures FromFirstDot(Basename("x" + suffix)) == suffix
  {
    var t := "x" + suffix;
    assert '/' !in t by {
      forall i | 1 <= i < |t| ensures t[i] != '/' {
        assert t[i] == suffix[i - 1];
      }
    }
    PlainName(t);
    assert t[1..] == suffix;
  }

  /** A name without separators is its own base name. */
  lemma PlainName(t: string)
    requires '/' !in t
    ensures Basename(t) == t
  {
  }

  /** The base name of a path ending in separator-free text ends in that text. */
  lemma BasenameWithSuffix(m: string, suffix: string) returns (b: string)
    requires '/' !in suffix
    ensures b == Basename(m + suffix)
    ensures EndsWith(b, suffix)
  {
    LastSlashAppend(m, suffix);
    b := Basename(m + suffix);
    assert b == m[LastSlash(m) + 1..] + suffix;
  }
}
