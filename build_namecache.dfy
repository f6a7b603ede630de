/**
 * The minify options and the terser name cache of one build configuration:
 * the manifest's `minify` (or legacy `mangle`) field chooses the options
 * and the cache file, `loadNameCache` reads the cache and lets its own
 * `minify` fragment override the options, and the bundle hook writes the
 * cache back for the first step only.
 *
 * Reading and writing files, `JSON.parse` and `JSON.stringify` are
 * parameters; `eol` stands for the platform's line ending.
 */
module BuildNameCache {
  import opened Wrappers
  import opened Seqs
  import opened JsValues
  import opened Paths
  import opened BuildFormats

  /** `pkg.minify || pkg.mangle || {}`. */
  function RawMinify(pkgMinify: Value, pkgMangle: Value): (r: Value)
    ensures Truthy(r)
    ensures Truthy(pkgMinify) ==> r == pkgMinify
    ensures !Truthy(pkgMinify) && Truthy(pkgMangle) ==> r == pkgMangle
    ensures !Truthy(pkgMinify) && !Truthy(pkgMangle) ==> r == Obj(map[])
  {
    if Truthy(pkgMinify) then pkgMinify else if Truthy(pkgMangle) then pkgMangle else Obj(map[])
  }

  /** A string names the cache file and contributes no options; any other value is the options. */
  function InitialMinifyOptions(raw: Value): (r: Value)
    ensures raw.Str? ==> r == Obj(map[])
    ensures !raw.Str? ==> r == raw
  {
    if raw.Str? then Obj(map[]) else raw
  }

  /** The cache file: a string value resolved against the working directory, else `mangle.json` there. */
  function CachePath(cwd: string, raw: Value): string {
    if raw.Str? then Resolve(cwd, raw.s) else Resolve(cwd, "mangle.json")
  }

  /**
   * With a plain file name (or none), the cache is the file of that name
   * (else `mangle.json`) in the working directory.
   */
  lemma CachePathInCwd(cwd: string, pkgMinify: Value, pkgMangle: Value)
    requires IsNormalized(cwd)
    requires var raw := RawMinify(pkgMinify, pkgMangle); raw.Str? ==> '/' !in raw.s
    ensures var raw := RawMinify(pkgMinify, pkgMangle);
      var path := CachePath(cwd, raw);
      Dirname(path) == cwd && Basename(path) == (if raw.Str? then raw.s else "mangle.json")
  {
    var raw := RawMinify(pkgMinify, pkgMangle);
    var name := if raw.Str? then raw.s else "mangle.json";
    assert CachePath(cwd, raw) == Resolve(cwd, name);
    DirnameOfChild(cwd, name);
    BasenameOfChild(cwd, name);
  }

  /**
   * `Object.assign({}, minifyOptions || {}, cache.minify)`: a new object
   * holding the package's options, with the cache's fragment winning on
   * every key it sets.
   */
  function MergeCacheMinify(options: Value, cacheMinify: Value): (r: Value)
    ensures r.Obj?
    ensures r.fields.Keys == OwnProps(options).Keys + OwnProps(cacheMinify).Keys
    ensures forall k :: k in OwnProps(cacheMinify) ==> r.fields[k] == OwnProps(cacheMinify)[k]
    ensures forall k :: k in OwnProps(options) && k !in OwnProps(cacheMinify) ==> r.fields[k] == OwnProps(options)[k]
  {
    var base := Assign(map[], if Truthy(options) then options else Obj(map[]));
    assert OwnProps(if Truthy(options) then options else Obj(map[])) == OwnProps(options);
    Obj(Assign(base, cacheMinify))
  }

  /** The cache text `writeBundle` writes: the JSON, plus the line ending the file had. */
  function CacheText(cache: Value, endsWithNewLine: bool, stringify: Value -> string, eol: string): string {
    stringify(cache) + (if endsWithNewLine then eol else "")
  }

  /**
   * The write hook exists only when compression is on (it sits beside the
   * terser plugin), and it writes for the first step only, and only when a
   * cache was read.
   */
  predicate WritesCache(writeMeta: bool, compress: bool, nameCache: Value) {
    compress && writeMeta && Truthy(nameCache)
  }

  /**
   * The state `createConfig` keeps for the name cache: the selected minify
   * options, the parsed cache, whether the cache file ended in a line
   * ending, and whether a cache was read at all (the source compares the
   * cache with its initial empty object by identity).
   */
  class NameCache {
    const cachePath: string
    var minifyOptions: Value
    var nameCache: Value
    var endsWithNewLine: bool
    var loaded: bool

    constructor(pkgMinify: Value, pkgMangle: Value, cwd: string)
      ensures cachePath == CachePath(cwd, RawMinify(pkgMinify, pkgMangle))
      ensures minifyOptions == InitialMinifyOptions(RawMinify(pkgMinify, pkgMangle))
      ensures nameCache == Obj(map[]) && !endsWithNewLine && !loaded
    {
      var raw := RawMinify(pkgMinify, pkgMangle);
      cachePath := CachePath(cwd, raw);
      minifyOptions := InitialMinifyOptions(raw);
      nameCache := Obj(map[]);
      endsWithNewLine := false;
      loaded := false;
    }

    /** The cache after `if (nameCache === bareNameCache) nameCache = null`. */
    function FinalNameCache(): (r: Value)
      reads this
      ensures !loaded ==> r == Null
      ensures loaded ==> r == nameCache
    {
      if loaded then nameCache else Null
    }

    /**
     * `loadNameCache()`: an unreadable file changes nothing; otherwise the
     * line ending is recorded, and a parsable file becomes the cache, whose
     * truthy `minify` fragment is merged over the options. Any failure is
     * swallowed.
     */
    method Load(readFile: string -> Option<string>, parse: string -> Option<Value>, eol: string)
      modifies this
      ensures readFile(cachePath).None? ==>
        minifyOptions == old(minifyOptions) && nameCache == old(nameCache)
        && endsWithNewLine == old(endsWithNewLine) && loaded == old(loaded)
      ensures readFile(cachePath).Some? ==> endsWithNewLine == EndsWith(readFile(cachePath).value, eol)
      ensures readFile(cachePath).Some? && parse(readFile(cachePath).value).None? ==>
        minifyOptions == old(minifyOptions) && nameCache == old(nameCache) && loaded == old(loaded)
      ensures readFile(cachePath).Some? && parse(readFile(cachePath).value).Some? ==>
        var cache := parse(readFile(cachePath).value).value;
        nameCache == cache && loaded
        && minifyOptions == (if Truthy(Get(cache, "minify")) then MergeCacheMinify(old(minifyOptions), Get(cache, "minify"))
                             else old(minifyOptions))
    {
      var data := readFile(cachePath);
      if data.Some? {
        endsWithNewLine := EndsWith(data.value, eol);
        var parsed := parse(data.value);
        if parsed.Some? {
          nameCache := parsed.value;
          loaded := true;
          if Truthy(Get(nameCache, "minify")) {
            minifyOptions := MergeCacheMinify(minifyOptions, Get(nameCache, "minify"));
          }
        }
      }
    }

    /**
     * `writeBundle()`: the path and text to write, when this step writes the
     * cache. With `compress` off the plugin carrying the hook is not created,
     * so nothing is written.
     */
    method WriteBundle(writeMeta: bool, compress: bool, stringify: Value -> string, eol: string)
      returns (write: Option<(string, string)>)
      ensures write.Some? <==> WritesCache(writeMeta, compress, FinalNameCache())
      ensures write.Some? ==> write.value == (cachePath, CacheText(nameCache, endsWithNewLine, stringify, eol))
      ensures write.Some? ==> loaded
    {
      var cache := FinalNameCache();
      if compress && writeMeta && Truthy(cache) {
        write := Some((cachePath, CacheText(cache, endsWithNewLine, stringify, eol)));
      } else {
        write := None;
      }
    }
  }

  /**
   * Writing the cache and reading it back gives the same cache and the same
   * line ending, when `JSON.parse` inverts `JSON.stringify` (also with a
   * trailing line ending) and the JSON text does not itself end in one.
   */
  lemma CacheRoundTrip(cache: Value, endsWithNewLine: bool, stringify: Value -> string,
                       parse: string -> Option<Value>, eol: string)
    requires eol != ""
    requires parse(stringify(cache)) == Some(cache) && parse(stringify(cache) + eol) == Some(cache)
    requires !EndsWith(stringify(cache), eol)
    ensures var text := CacheText(cache, endsWithNewLine, stringify, eol);
      EndsWith(text, eol) == endsWithNewLine && parse(text) == Some(cache)
  {
    var s := stringify(cache);
    if endsWithNewLine {
      assert (s + eol)[|s + eol| - |eol|..] == eol;
    } else {
      assert s + "" == s;
    }
  }

  /**
   * Loading a cache file that the hook wrote and then running the hook of
   * the first step, with compression on, writes the same text back to the
   * same file: a build that renames nothing leaves the cache file unchanged.
   */
  method LoadThenWrite(nc: NameCache, readFile: string -> Option<string>, parse: string -> Option<Value>,
                       stringify: Value -> string, eol: string, cache: Value, endsWithNewLine: bool)
    returns (write: Option<(string, string)>)
    modifies nc
    requires readFile(nc.cachePath) == Some(CacheText(cache, endsWithNewLine, stringify, eol))
    requires Truthy(cache)
    requires eol != ""
    requires parse(stringify(cache)) == Some(cache) && parse(stringify(cache) + eol) == Some(cache)
    requires !EndsWith(stringify(cache), eol)
    ensures write == Some((nc.cachePath, readFile(nc.cachePath).value))
  {
    CacheRoundTrip(cache, endsWithNewLine, stringify, parse, eol);
    nc.Load(readFile, parse, eol);
    write := nc.WriteBundle(true, true, stringify, eol);
  }

  /**
   * Of all build steps, only the first can write the cache, and it does
   * whenever compression is on and a cache was read.
   */
  lemma OnlyFirstStepWritesCache(entries: seq<string>, formats: seq<string>, compress: bool, nameCache: Value, k: nat)
    requires k < |StepsOf(entries, formats)|
    ensures WritesCache(StepsOf(entries, formats)[k].writeMeta, compress, nameCache) <==> k == 0 && compress && Truthy(nameCache)
  {
    StepsMatrix(entries, formats);
  }
}
