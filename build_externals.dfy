/**
 * Which imports a build leaves external, and the global variable names the
 * UMD output binds them to: the external list, the anchored alternation
 * predicate built from it, the `external` callback handed to the bundler,
 * and the globals map derived from the list and `--globals`.
 *
 * Regular-expression externals (`/node:.*\/` and the `--external` patterns)
 * are opaque: whether a pattern's source matches a text exactly is a
 * caller-supplied predicate.
 */
module BuildExternals {
  import opened Wrappers
  import opened Seqs
  import opened Utils

  /** One external: a module name, matched literally, or a regular expression given by its source. */
  datatype Ext = Name(s: string) | Pattern(source: string)

  const DefaultExternals: seq<Ext> := [Name("dns"), Name("fs"), Name("path"), Name("url")]

  predicate IsDefaultName(x: string) {
    x == "dns" || x == "fs" || x == "path" || x == "url"
  }

  function Names(xs: seq<string>): (r: seq<Ext>)
    ensures |r| == |xs|
    ensures forall i {:trigger r[i]} :: 0 <= i < |xs| ==> r[i] == Name(xs[i])
    ensures forall x :: Name(x) in r <==> x in xs
    ensures forall p :: Pattern(p) !in r
  {
    if |xs| == 0 then [] else [Name(xs[0])] + Names(xs[1..])
  }

  function Patterns(xs: seq<string>): (r: seq<Ext>)
    ensures forall p :: Pattern(p) in r <==> p in xs
    ensures forall x :: Name(x) !in r
  {
    if |xs| == 0 then [] else [Pattern(xs[0])] + Patterns(xs[1..])
  }

  /** `entries.filter(e => e !== entry)`. */
  function Siblings(entries: seq<string>, entry: string): (r: seq<string>)
    ensures forall x :: x in r <==> x in entries && x != entry
  {
    if |entries| == 0 then []
    else (if entries[0] != entry then [entries[0]] else []) + Siblings(entries[1..], entry)
  }

  /**
   * The external list of one entry: the four default modules and the other
   * entries; for a `node` target the `node:` pattern and the builtin
   * modules; then nothing more for `--external none`, the peer
   * dependencies and the `--external` patterns when that option is given,
   * and the peer and regular dependencies otherwise.
   */
  method ExternalList(entries: seq<string>, entry: string, targetNode: bool, builtins: seq<string>,
                      peerDeps: seq<string>, deps: seq<string>, externalOption: string)
    returns (external: seq<Ext>)
    ensures |external| >= 4 && external[..4] == DefaultExternals
    ensures forall x :: Name(x) in external <==>
      IsDefaultName(x) || (x in entries && x != entry) || (targetNode && x in builtins)
      || (externalOption != "none" && x in peerDeps) || (externalOption == "" && x in deps)
    ensures forall p :: Pattern(p) in external <==>
      (targetNode && p == "node:.*")
      || (externalOption != "" && externalOption != "none" && p in Split(externalOption, ','))
  {
    external := DefaultExternals + Names(Siblings(entries, entry));
    if targetNode {
      external := external + [Pattern("node:.*")] + Names(builtins);
    }
    if externalOption == "none" {
      // everything else is bundled
    } else if externalOption != "" {
      external := external + Names(peerDeps) + Patterns(Split(externalOption, ','));
    } else {
      external := external + Names(peerDeps) + Names(deps);
    }
  }

  // ---------------------------------------------------------------------------
  // the external predicate

  /** The text an external contributes to the alternation: escaped names, raw pattern sources. */
  function AlternativeSource(e: Ext): string {
    match e
    case Name(s) => Escape(s)
    case Pattern(p) => p
  }

  /**
   * One alternative matches `t` exactly: an escaped name matches the literal
   * text it reads back as, a pattern as the given predicate says.
   */
  predicate AlternativeMatches(e: Ext, t: string, patternMatches: (string, string) -> bool) {
    match e
    case Name(_) => Unescape(AlternativeSource(e)) == Some(t)
    case Pattern(p) => patternMatches(p, t)
  }

  /** `^(alt1|alt2|...)($|/)` tests `id`: some alternative matches a prefix that ends `id` or precedes a `/`. */
  predicate ExternalPredicate(external: seq<Ext>, id: string, patternMatches: (string, string) -> bool) {
    exists i, n :: 0 <= i < |external| && 0 <= n <= |id| && (n == |id| || id[n] == '/')
      && AlternativeMatches(external[i], id[..n], patternMatches)
  }

  /** A listed name makes the name itself and every path below it external, and nothing else. */
  lemma NameMatches(s: string, t: string, patternMatches: (string, string) -> bool)
    ensures AlternativeMatches(Name(s), t, patternMatches) <==> t == s
  {
    EscapeRoundTrip(s);
  }

  /** A name of the list makes the id external when the id is that name or lies below it. */
  predicate BelowName(names: seq<string>, id: string) {
    exists s :: s in names && (id == s || StartsWith(id, s + "/"))
  }

  /** With names only, an id is external iff it is a listed name or starts with one followed by `/`. */
  lemma ExternalPredicateNames(names: seq<string>, id: string, patternMatches: (string, string) -> bool)
    ensures ExternalPredicate(Names(names), id, patternMatches) <==> BelowName(names, id)
  {
    if ExternalPredicate(Names(names), id, patternMatches) {
      MatchedNameIsListed(names, id, patternMatches);
    }
    if BelowName(names, id) {
      ListedNameMatches(names, id, patternMatches);
    }
  }

  lemma MatchedNameIsListed(names: seq<string>, id: string, patternMatches: (string, string) -> bool)
    requires ExternalPredicate(Names(names), id, patternMatches)
    ensures BelowName(names, id)
  {
    var external := Names(names);
    var i, n :| 0 <= i < |external| && 0 <= n <= |id| && (n == |id| || id[n] == '/')
      && AlternativeMatches(external[i], id[..n], patternMatches);
    var s := names[i];
    NameMatches(s, id[..n], patternMatches);
    BoundaryIsBelow(id, n, s);
  }

  lemma ListedNameMatches(names: seq<string>, id: string, patternMatches: (string, string) -> bool)
    requires BelowName(names, id)
    ensures ExternalPredicate(Names(names), id, patternMatches)
  {
    var s :| s in names && (id == s || StartsWith(id, s + "/"));
    var i := IndexOf(names, s);
    BelowIsBoundary(id, s);
    NameMatches(s, id[..|s|], patternMatches);
    MatchWitness(Names(names), id, i, |s|, patternMatches);
  }

  /** An alternative matching a prefix that ends the id or precedes a `/` makes the id external. */
  lemma MatchWitness(external: seq<Ext>, id: string, i: nat, n: nat, patternMatches: (string, string) -> bool)
    requires i < |external| && n <= |id| && (n == |id| || id[n] == '/')
    requires AlternativeMatches(external[i], id[..n], patternMatches)
    ensures ExternalPredicate(external, id, patternMatches)
  {
  }

  /** An id that is `s` or lies below `s` has `s` as a prefix ending the id or preceding a `/`. */
  lemma BelowIsBoundary(id: string, s: string)
    requires id == s || StartsWith(id, s + "/")
    ensures |s| <= |id| && id[..|s|] == s && (|s| == |id| || id[|s|] == '/')
  {
    if id != s {
      assert id[..|s| + 1] == s + "/";
      assert id[..|s|] == (s + "/")[..|s|];
      assert id[|s|] == (s + "/")[|s|];
    }
  }

  /** The converse of `BelowIsBoundary`. */
  lemma BoundaryIsBelow(id: string, n: nat, s: string)
    requires n <= |id| && id[..n] == s && (n == |id| || id[n] == '/')
    ensures id == s || StartsWith(id, s + "/")
  {
    if n < |id| {
      assert id[..n + 1] == s + "/";
    }
  }

  const AsyncHelpers := "babel-plugin-transform-async-to-promises/helpers"

  /**
   * The `external` callback: the async helpers and aliased ids are bundled,
   * `.` is external between entries of a multi-entry build, an empty list
   * keeps everything, and otherwise the predicate decides.
   */
  function IsExternal(id: string, multipleEntries: bool, aliasIds: seq<string>, external: seq<Ext>,
                      patternMatches: (string, string) -> bool): (r: bool)
    ensures id == AsyncHelpers ==> !r
    ensures id != AsyncHelpers && multipleEntries && id == "." ==> r
    ensures id in aliasIds && !(multipleEntries && id == ".") ==> !r
  {
    if id == AsyncHelpers then false
    else if multipleEntries && id == "." then true
    else if IndexOf(aliasIds, id) >= 0 then false
    else if |external| == 0 then false
    else ExternalPredicate(external, id, patternMatches)
  }

  /** The list always holds the default modules, so the empty-list case never decides. */
  lemma IsExternalOtherwise(id: string, multipleEntries: bool, aliasIds: seq<string>, external: seq<Ext>,
                            patternMatches: (string, string) -> bool)
    requires |external| >= 4 && external[..4] == DefaultExternals
    requires id != AsyncHelpers && !(multipleEntries && id == ".") && id !in aliasIds
    ensures IsExternal(id, multipleEntries, aliasIds, external, patternMatches)
        <==> ExternalPredicate(external, id, patternMatches)
  {
  }

  /** The default modules and any path below them are external for every build. */
  lemma DefaultsAreExternal(external: seq<Ext>, x: string, rest: string, patternMatches: (string, string) -> bool)
    requires |external| >= 4 && external[..4] == DefaultExternals
    requires IsDefaultName(x)
    ensures ExternalPredicate(external, x, patternMatches)
    ensures ExternalPredicate(external, x + "/" + rest, patternMatches)
  {
    var i := if x == "dns" then 0 else if x == "fs" then 1 else if x == "path" then 2 else 3;
    assert external[i] == DefaultExternals[i] == Name(x);
    NameMatches(x, x, patternMatches);
    BelowIsBoundary(x, x);
    MatchWitness(external, x, i, |x|, patternMatches);
    var id := x + "/" + rest;
    assert StartsWith(id, x + "/") by { assert id[..|x| + 1] == x + "/"; }
    BelowIsBoundary(id, x);
    MatchWitness(external, id, i, |x|, patternMatches);
  }

  // ---------------------------------------------------------------------------
  // globals

  /** The text of an external as the globals derivation sees it: a pattern contributes its source. */
  function ExtText(e: Ext): string {
    match e
    case Name(s) => s
    case Pattern(p) => p
  }

  /** `name` matches `^[a-z_$][a-z0-9_\-$]*$`. */
  predicate IsIdentifierLike(name: string) {
    |name| > 0 && ('a' <= name[0] <= 'z' || name[0] == '_' || name[0] == '$')
    && forall i :: 1 <= i < |name| ==>
         'a' <= name[i] <= 'z' || '0' <= name[i] <= '9' || name[i] == '_' || name[i] == '-' || name[i] == '$'
  }

  /** The globals the reduce derives: each identifier-like external maps to its camel-cased form. */
  function Derived(external: seq<Ext>, camelCase: string -> string): map<string, Option<string>> {
    if |external| == 0 then map[]
    else
      var d := Derived(external[..|external| - 1], camelCase);
      var name := ExtText(external[|external| - 1]);
      if IsIdentifierLike(name) then d[name := Some(camelCase(name))] else d
  }

  /** `--globals` given and not `none`. */
  predicate UserGlobals(globalsOption: string) {
    globalsOption != "" && globalsOption != "none"
  }

  /** The `--globals` pairs (a pair without `=` maps its key to `undefined`). */
  function UserMapping(globalsOption: string): map<string, Option<string>> {
    MappingErrors(Split(globalsOption, ','), NoProcessing);
    MappingOf(Split(globalsOption, ','), NoProcessing).value
  }

  /** The globals map: the derived names, overridden by the user's pairs unless `--globals none`. */
  function GlobalsOf(external: seq<Ext>, globalsOption: string, camelCase: string -> string): map<string, Option<string>> {
    if UserGlobals(globalsOption) then Derived(external, camelCase) + UserMapping(globalsOption)
    else Derived(external, camelCase)
  }

  /** The `globals` reduce over the external list, then `Object.assign` of the user's pairs. */
  method Globals(external: seq<Ext>, globalsOption: string, camelCase: string -> string)
    returns (globals: map<string, Option<string>>)
    ensures globals == GlobalsOf(external, globalsOption, camelCase)
  {
    globals := map[];
    var i := 0;
    while i < |external|
      invariant 0 <= i <= |external|
      invariant globals == Derived(external[..i], camelCase)
    {
      assert external[..i + 1][..i] == external[..i];
      var name := ExtText(external[i]);
      if IsIdentifierLike(name) {
        globals := globals[name := Some(camelCase(name))];
      }
      i := i + 1;
    }
    assert external[..i] == external;
    if UserGlobals(globalsOption) {
      var user := ParseMappingArgument(globalsOption, NoProcessing);
      MappingErrors(Split(globalsOption, ','), NoProcessing);
      globals := globals + user.value;
    }
  }

  lemma {:induction false} DerivedSpec(external: seq<Ext>, camelCase: string -> string, k: string)
    ensures k in Derived(external, camelCase) <==>
      IsIdentifierLike(k) && exists i :: 0 <= i < |external| && ExtText(external[i]) == k
    ensures k in Derived(external, camelCase) ==> Derived(external, camelCase)[k] == Some(camelCase(k))
  {
    if |external| > 0 {
      var init := external[..|external| - 1];
      DerivedSpec(init, camelCase, k);
      if exists i :: 0 <= i < |external| && ExtText(external[i]) == k {
        var i :| 0 <= i < |external| && ExtText(external[i]) == k;
        if i < |init| { assert init[i] == external[i]; }
      }
      if exists i :: 0 <= i < |init| && ExtText(init[i]) == k {
        var i :| 0 <= i < |init| && ExtText(init[i]) == k;
        assert external[i] == init[i];
      }
    }
  }

  /**
   * Every identifier-like external gets its camel-cased global, the user's
   * pairs win over derived names, and `--globals none` keeps exactly the
   * derived names.
   */
  lemma GlobalsSpec(external: seq<Ext>, globalsOption: string, camelCase: string -> string, k: string)
    ensures var g := GlobalsOf(external, globalsOption, camelCase);
      (k in g <==> (IsIdentifierLike(k) && exists i :: 0 <= i < |external| && ExtText(external[i]) == k)
                   || (UserGlobals(globalsOption) && k in UserMapping(globalsOption)))
      && (UserGlobals(globalsOption) && k in UserMapping(globalsOption) ==> g[k] == UserMapping(globalsOption)[k])
      && (k in g && !(UserGlobals(globalsOption) && k in UserMapping(globalsOption)) ==> g[k] == Some(camelCase(k)))
  {
    DerivedSpec(external, camelCase, k);
  }

  /**
   * The globals as written: `camelCase` is not exported by the utilities
   * module, so the reduce throws at the first identifier-like external.
   */
  function GlobalsAsWritten(external: seq<Ext>, globalsOption: string): Result<map<string, Option<string>>> {
    if exists i :: 0 <= i < |external| && IsIdentifierLike(ExtText(external[i])) then
      Err(TypeError("camelCase is not a function"))
    else if UserGlobals(globalsOption) then Ok(UserMapping(globalsOption))
    else Ok(map[])
  }

  /** `dns` is always listed and is identifier-like, so as written every configuration throws. */
  lemma GlobalsAsWrittenAlwaysFails(external: seq<Ext>, globalsOption: string)
    requires |external| >= 4 && external[..4] == DefaultExternals
    ensures GlobalsAsWritten(external, globalsOption) == Err(TypeError("camelCase is not a function"))
  {
    assert external[0] == DefaultExternals[0];
    assert IsIdentifierLike(ExtText(external[0]));
  }
}
