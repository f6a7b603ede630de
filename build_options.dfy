/**
 * The option coercions at the top of `build` in src/actions/build.js:
 * `--compress` and `--sourcemap` values, the entry list, and the package
 * manifest with its `publishConfig` spread over it.
 */
module BuildOptions {
  import opened JsValues
  import Utils

  /** `opts.compress` after lines 53-61: CLI strings become booleans; absent means "not a Node build". */
  function CoerceCompress(compress: Value, target: Value): (r: bool)
    ensures compress.Bool? ==> r == compress.b
    ensures compress == Str("false") || compress == Str("0") ==> !r
    ensures !(compress.Bool? || compress.Null? || compress.Undefined?) && compress != Str("false") && compress != Str("0") ==> r
    ensures compress.Null? || compress.Undefined? ==> (r <==> target != Str("node"))
  {
    if !(compress.Null? || compress.Undefined?) then
      if compress.Bool? then compress.b else compress != Str("false") && compress != Str("0")
    else target != Str("node")
  }

  /** `options.sourcemap` after lines 85-91, and whether the inline-sourcemap warning is printed. */
  function CoerceSourcemap(sourcemap: Value): (r: (Value, bool))
    ensures r.0 in {Str("inline"), Bool(true), Bool(false)}
    ensures r.1 <==> sourcemap == Str("inline")
    ensures r.0 == Str("inline") <==> sourcemap == Str("inline")
    ensures r.0 == Bool(false) <==> sourcemap in {Str("false"), Bool(false)}
  {
    if sourcemap == Str("inline") then (sourcemap, true)
    else if sourcemap == Str("false") then (Bool(false), false)
    else if sourcemap != Bool(false) then (Bool(true), false)
    else (sourcemap, false)
  }

  /** `arrify(opts.entry).concat(opts._)`: explicit entries, then positional arguments. */
  function Entries(entry: Value, positional: seq<Value>): (r: seq<Value>)
    ensures |r| == |Utils.Arrify(entry)| + |positional|
    ensures r[..|Utils.Arrify(entry)|] == Utils.Arrify(entry)
    ensures r[|Utils.Arrify(entry)|..] == positional
  {
    Utils.Arrify(entry) + positional
  }

  /** `{ ...pkg, ...pkg.publishConfig }`: the `publishConfig` fields override the manifest's own. */
  function PublishedPkg(pkg: map<string, Value>): (r: map<string, Value>)
    ensures forall k :: k in OwnProps(Get(Obj(pkg), "publishConfig")) ==> k in r && r[k] == OwnProps(Get(Obj(pkg), "publishConfig"))[k]
    ensures forall k :: k in pkg && k !in OwnProps(Get(Obj(pkg), "publishConfig")) ==> k in r && r[k] == pkg[k]
    ensures r.Keys == pkg.Keys + OwnProps(Get(Obj(pkg), "publishConfig")).Keys
  {
    Assign(pkg, Get(Obj(pkg), "publishConfig"))
  }

  /** A manifest field read as a string; a missing or non-string field reads as "". */
  function Text(pkg: map<string, Value>, key: string): string {
    var v := Get(Obj(pkg), key);
    if v.Str? then v.s else ""
  }
}
