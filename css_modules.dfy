/**
 * The `--css-modules` decision table of src/shared/css-modules.js. The CLI
 * hands over the strings "true", "false" and "null" where a default hands
 * over the primitives; both are read alike.
 */
module CssModules {
  import opened JsValues

  /** `processCssmodulesArgument`: "true"/"false"/"null" become the primitives; anything else passes through. */
  function ProcessCssModulesArgument(option: Value): (p: Value)
    ensures option == Str("true") || option == Bool(true) ==> p == Bool(true)
    ensures option == Str("false") || option == Bool(false) ==> p == Bool(false)
    ensures option == Str("null") || option == Null ==> p == Null
    ensures option !in {Str("true"), Bool(true), Str("false"), Bool(false), Str("null"), Null} ==> p == option
    // a processed value is never one of the CLI strings, so processing twice is processing once
    ensures p !in {Str("true"), Str("false"), Str("null")}
  {
    if option == Str("true") || option == Bool(true) then Bool(true)
    else if option == Str("false") || option == Bool(false) then Bool(false)
    else if option == Str("null") || option == Null then Null
    else option
  }

  /** `shouldCssModules`: every CSS file is a module (`true`) or only `*.module.css` files are (`null`). */
  function ShouldCssModules(option: Value): (r: bool)
    ensures r <==> option in {Bool(true), Str("true"), Null, Str("null")}
    ensures option == Bool(false) || option == Str("false") || option == Undefined ==> !r
  {
    var p := ProcessCssModulesArgument(option);
    p == Bool(true) || p == Null
  }

  const WatchScopedName := "_[name]__[local]__[hash:base64:5]"
  const BuildScopedName := "_[hash:base64:5]"

  /** What `cssModulesConfig` returns: `false`, or `{ generateScopedName }`. */
  datatype CssModulesConfig = Disabled | Scoped(generateScopedName: Value)

  /** `cssModulesConfig(options)`, given `options['css-modules']` and `options.watch`. */
  function CssModulesConfigOf(option: Value, watch: Value): (r: CssModulesConfig)
    ensures r.Disabled? <==> ProcessCssModulesArgument(option) == Bool(false)
    ensures ShouldCssModules(option) ==>
      r == Scoped(Str(if Truthy(watch) then WatchScopedName else BuildScopedName))
    ensures !ShouldCssModules(option) && ProcessCssModulesArgument(option) != Bool(false) ==>
      r == Scoped(option)
    // a custom scope-name string from the CLI is used verbatim, whatever the watch mode
    ensures option.Str? && option.s !in {"true", "false", "null"} ==> r == Scoped(option)
  {
    var p := ProcessCssModulesArgument(option);
    var hasPassedInScopeName := !(p.Bool? || p.Null?);
    if ShouldCssModules(option) || hasPassedInScopeName then
      var generateScopedName := if Truthy(watch) then Str(WatchScopedName) else Str(BuildScopedName);
      Scoped(if hasPassedInScopeName then p else generateScopedName)
    else Disabled
  }
}
