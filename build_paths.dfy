/**
 * Where a build reads from and writes to: the bundle's global name
 * (`getName` with its identifier clean-up), the input files (`getInput`),
 * the output bundle path (`getOutput`), the de-duplicated entry files
 * (`getEntries`) and the type declaration directory (`getDeclarationDir`).
 *
 * The file system and the globber are parameters: `isDir` and `isFile`
 * answer for a path, `glob` expands one pattern. `camelCase` is an opaque
 * parameter too.
 */
module BuildPaths {
  import opened Wrappers
  import opened Seqs
  import opened Paths
  import opened Utils

  // ---------------------------------------------------------------------------
  // getName

  /** Characters of `[\w.-]`. */
  predicate IsIdentChar(c: char) {
    IsAsciiLetter(c) || IsDigit(c) || c == '_' || c == '.' || c == '-'
  }

  predicate IsAlnum(c: char) { IsAsciiLetter(c) || IsDigit(c) }

  predicate HasAlnum(t: string) {
    |t| > 0 && (IsAlnum(t[0]) || HasAlnum(t[1..]))
  }

  /** The index of the first line terminator in `s`, or `|s|`. */
  function LineEnd(s: string): (n: nat)
    ensures n <= |s|
    ensures forall i :: 0 <= i < n ==> !IsLineTerminator(s[i])
    ensures n < |s| ==> IsLineTerminator(s[n])
  {
    if |s| == 0 || IsLineTerminator(s[0]) then 0 else 1 + LineEnd(s[1..])
  }

  /** `s.replace(/^@.*\//, '')`: a leading `@` up to the last `/` of the first line is removed. */
  function StripScopePrefix(s: string): (r: string)
    ensures EndsWith(s, r)
  {
    if |s| > 0 && s[0] == '@' then
      var k := LastSlash(s[..LineEnd(s)]);
      if k > 0 then s[k + 1..] else s
    else s
  }

  /** A scope on one line in front of a separator-free name is removed entirely. */
  lemma StripScopedName(scope: string, name: string)
    requires forall i :: 0 <= i < |scope| ==> !IsLineTerminator(scope[i])
    requires '/' !in name
    ensures StripScopePrefix("@" + scope + "/" + name) == name
  {
    var s := "@" + scope + "/" + name;
    var n := LineEnd(s);
    assert n >= |scope| + 2;
    var line := s[..n];
    var tail := line[|scope| + 2..];
    assert line == ("@" + scope + "/") + tail;
    assert forall i :: 0 <= i < |tail| ==> tail[i] == name[i];
    assert '/' !in tail by {
      forall i | 0 <= i < |tail| ensures tail[i] != '/' {
        assert tail[i] == name[i];
      }
    }
    LastSlashAppend("@" + scope + "/", tail);
    assert LastSlash("@" + scope + "/") == |scope| + 1;
    assert s[|scope| + 2..] == name;
  }

  /** The length of the leading run of non-letters. */
  function LeadingNonLetters(t: string): (n: nat)
    ensures n <= |t|
    ensures n < |t| ==> IsAsciiLetter(t[n])
    ensures forall j :: 0 <= j < n ==> !IsAsciiLetter(t[j])
  {
    if |t| == 0 || IsAsciiLetter(t[0]) then 0 else 1 + LeadingNonLetters(t[1..])
  }

  /**
   * The global scan of `INVALID_ES3_IDENT` away from the start of the input:
   * a character outside `[\w.-]` is deleted, and a remainder without any
   * letter or digit is deleted as a whole.
   */
  function StripInvalidRest(t: string): (r: string)
    ensures forall i :: 0 <= i < |r| ==> IsIdentChar(r[i]) && r[i] in t
    ensures r == "" <==> !HasAlnum(t)
    ensures r != "" ==> IsAlnum(r[|r| - 1])
  {
    if |t| == 0 then ""
    else if !IsIdentChar(t[0]) then StripInvalidRest(t[1..])
    else if !HasAlnum(t) then ""
    else [t[0]] + StripInvalidRest(t[1..])
  }

  /**
   * `t.replace(INVALID_ES3_IDENT, '')`: the leading run of non-letters goes,
   * then the scan above runs over what remains.
   */
  function StripInvalid(t: string): (r: string)
    ensures r == "" || IsAsciiLetter(r[0])
    ensures r != "" ==> IsAlnum(r[|r| - 1])
    ensures forall i :: 0 <= i < |r| ==> IsIdentChar(r[i]) && r[i] in t
  {
    var u := t[LeadingNonLetters(t)..];
    assert forall c :: c in u ==> c in t;
    StripInvalidRest(u)
  }

  predicate IsCleanIdentifier(r: string) {
    (r == "" || IsAsciiLetter(r[0]))
    && (r != "" ==> IsAlnum(r[|r| - 1]))
    && forall i :: 0 <= i < |r| ==> IsIdentChar(r[i])
  }

  lemma {:induction false} HasAlnumLast(u: string)
    requires u != "" && IsAlnum(u[|u| - 1])
    ensures HasAlnum(u)
  {
    if !IsAlnum(u[0]) {
      HasAlnumLast(u[1..]);
    }
  }

  lemma {:induction false} StripInvalidRestFixed(u: string)
    requires forall i :: 0 <= i < |u| ==> IsIdentChar(u[i])
    requires u != "" ==> IsAlnum(u[|u| - 1])
    ensures StripInvalidRest(u) == u
  {
    if u != "" {
      HasAlnumLast(u);
      StripInvalidRestFixed(u[1..]);
      assert u == [u[0]] + u[1..];
    }
  }

  /** Cleaning an identifier a second time changes nothing. */
  lemma StripInvalidIdempotent(t: string)
    ensures StripInvalid(StripInvalid(t)) == StripInvalid(t)
  {
    var r := StripInvalid(t);
    assert LeadingNonLetters(r) == 0;
    assert r[0..] == r;
    StripInvalidRestFixed(r);
  }

  /** The characters of `t` in `[\w.-]`, in order. */
  function KeepIdentChars(t: string): (r: string)
    ensures forall i :: 0 <= i < |r| ==> IsIdentChar(r[i])
  {
    if |t| == 0 then "" else (if IsIdentChar(t[0]) then [t[0]] else "") + KeepIdentChars(t[1..])
  }

  /** The length of the prefix of `t` that ends with its last letter or digit (0 when there is none). */
  function AlnumPrefixLen(t: string): (n: nat)
    ensures n <= |t|
    ensures n > 0 ==> IsAlnum(t[n - 1])
    ensures forall j :: n <= j < |t| ==> !IsAlnum(t[j])
  {
    if |t| == 0 then 0 else if IsAlnum(t[|t| - 1]) then |t| else AlnumPrefixLen(t[..|t| - 1])
  }

  /** The three properties of AlnumPrefixLen pin it down. */
  lemma AlnumPrefixLenUnique(t: string, n: nat)
    requires n <= |t| && (n > 0 ==> IsAlnum(t[n - 1]))
    requires forall j :: n <= j < |t| ==> !IsAlnum(t[j])
    ensures n == AlnumPrefixLen(t)
  {
  }

  lemma {:induction false} HasAlnumIff(t: string)
    ensures HasAlnum(t) <==> AlnumPrefixLen(t) > 0
  {
    if |t| > 0 {
      HasAlnumIff(t[1..]);
      var m := AlnumPrefixLen(t[1..]);
      if m > 0 {
        assert t[m] == t[1..][m - 1];
      } else if IsAlnum(t[0]) {
        assert AlnumPrefixLen(t) > 0;
      } else {
        forall j | 0 <= j < |t| ensures !IsAlnum(t[j]) {
          if j > 0 { assert t[j] == t[1..][j - 1]; }
        }
      }
    }
  }

  /** AlnumPrefixLen of a non-empty text, from that of its tail. */
  lemma AlnumPrefixLenCons(t: string)
    requires |t| > 0
    ensures AlnumPrefixLen(t) ==
      if AlnumPrefixLen(t[1..]) > 0 then 1 + AlnumPrefixLen(t[1..]) else if IsAlnum(t[0]) then 1 else 0
  {
    var m := AlnumPrefixLen(t[1..]);
    var n := if m > 0 then 1 + m else if IsAlnum(t[0]) then 1 else 0;
    forall j | n <= j < |t| ensures !IsAlnum(t[j]) {
      if j > 0 { assert t[j] == t[1..][j - 1]; }
    }
    if m > 0 { assert t[n - 1] == t[1..][m - 1]; }
    AlnumPrefixLenUnique(t, n);
  }

  /**
   * The removal away from the start: the `[\w.-]` characters of the input up
   * to its last letter or digit, in order.
   */
  lemma {:induction false} StripInvalidRestSpec(t: string)
    ensures StripInvalidRest(t) == KeepIdentChars(t[..AlnumPrefixLen(t)])
  {
    if |t| > 0 {
      StripInvalidRestSpec(t[1..]);
      AlnumPrefixLenCons(t);
      HasAlnumIff(t);
      HasAlnumIff(t[1..]);
      var m := AlnumPrefixLen(t[1..]);
      var n := AlnumPrefixLen(t);
      if n > 0 {
        var p := t[..n];
        assert p[1..] == t[1..][..m];
        assert p[0] == t[0];
      }
    }
  }

  /**
   * `t.replace(INVALID_ES3_IDENT, '')` characterised: after the leading
   * non-letters, the `[\w.-]` characters up to the last letter or digit.
   */
  lemma StripInvalidSpec(t: string)
    ensures var u := t[LeadingNonLetters(t)..];
      StripInvalid(t) == KeepIdentChars(u[..AlnumPrefixLen(u)])
  {
    StripInvalidRestSpec(t[LeadingNonLetters(t)..]);
  }

  /** The text handed to `camelCase` for a package name. */
  function PkgIdentifier(pkgName: string): (r: string)
    ensures IsCleanIdentifier(r)
    ensures forall i :: 0 <= i < |r| ==> !('A' <= r[i] <= 'Z')
  {
    var lowered := AsciiLowerString(StripScopePrefix(pkgName));
    LoweredHasNoUpper(StripScopePrefix(pkgName));
    StripInvalid(lowered)
  }

  /**
   * The normalised package name: the scope prefix removed and the rest
   * lower-cased, then its leading non-letters dropped and its `[\w.-]`
   * characters kept up to its last letter or digit.
   */
  lemma PkgIdentifierSpec(pkgName: string)
    ensures var lowered := AsciiLowerString(StripScopePrefix(pkgName));
      var u := lowered[LeadingNonLetters(lowered)..];
      PkgIdentifier(pkgName) == KeepIdentChars(u[..AlnumPrefixLen(u)])
  {
    StripInvalidSpec(AsciiLowerString(StripScopePrefix(pkgName)));
  }

  lemma LoweredHasNoUpper(s: string)
    ensures forall c :: c in AsciiLowerString(s) ==> !('A' <= c <= 'Z')
  {
    var lowered := AsciiLowerString(s);
    forall c | c in lowered
      ensures !('A' <= c <= 'Z')
    {
      var i :| 0 <= i < |lowered| && lowered[i] == c;
      assert c == AsciiLower(s[i]);
    }
  }

  /** The scope of a scoped package plays no part in its identifier. */
  lemma PkgIdentifierScoped(scope: string, name: string)
    requires forall i :: 0 <= i < |scope| ==> !IsLineTerminator(scope[i])
    requires '/' !in name
    ensures PkgIdentifier("@" + scope + "/" + name) == PkgIdentifier(name)
  {
    StripScopedName(scope, name);
  }

  datatype NameInfo = NameInfo(finalName: string, pkgName: string, warnMissingName: bool)

  /**
   * `getName`: the package name falls back to the directory's base name
   * (with a warning when a package.json exists), and the bundle's global
   * name is the `--name` option, else `amdName`, else the camel-cased
   * identifier of the package name. Empty strings stand for absent values.
   */
  function GetName(name: string, pkgName: string, amdName: string, cwd: string,
                   hasPackageJson: bool, camelCase: string -> string): (r: NameInfo)
    ensures r.pkgName == (if pkgName == "" then Basename(cwd) else pkgName)
    ensures r.warnMissingName <==> pkgName == "" && hasPackageJson
    ensures name != "" ==> r.finalName == name
    ensures name == "" && amdName != "" ==> r.finalName == amdName
    ensures name == "" && amdName == "" ==> r.finalName == camelCase(PkgIdentifier(r.pkgName))
  {
    var resolvedName := if pkgName == "" then Basename(cwd) else pkgName;
    var finalName :=
      if name != "" then name
      else if amdName != "" then amdName
      else camelCase(PkgIdentifier(resolvedName));
    NameInfo(finalName, resolvedName, pkgName == "" && hasPackageJson)
  }

  /**
   * `getName` as written: `camelCase` is not exported by the utilities
   * module, so the call throws whenever neither `--name` nor `amdName` is set.
   */
  function GetNameAsWritten(name: string, pkgName: string, amdName: string, cwd: string,
                            hasPackageJson: bool): (r: Result<NameInfo>)
  {
    var resolvedName := if pkgName == "" then Basename(cwd) else pkgName;
    if name != "" then Ok(NameInfo(name, resolvedName, pkgName == "" && hasPackageJson))
    else if amdName != "" then Ok(NameInfo(amdName, resolvedName, pkgName == "" && hasPackageJson))
    else Err(TypeError("camelCase is not a function"))
  }

  /** The as-written code fails exactly where the name has to be derived, and agrees otherwise. */
  lemma GetNameAsWrittenFails(name: string, pkgName: string, amdName: string, cwd: string,
                              hasPackageJson: bool, camelCase: string -> string)
    ensures GetNameAsWritten(name, pkgName, amdName, cwd, hasPackageJson).Err? <==> name == "" && amdName == ""
    ensures GetNameAsWritten(name, pkgName, amdName, cwd, hasPackageJson).Ok? ==>
      GetNameAsWritten(name, pkgName, amdName, cwd, hasPackageJson).value
        == GetName(name, pkgName, amdName, cwd, hasPackageJson, camelCase)
  {
  }

  // ---------------------------------------------------------------------------
  // getInput

  /** `jsOrTs(cwd, filename)`: the first of `.ts`, `.tsx` that is a file, else `.js`. */
  function JsOrTs(cwd: string, filename: string, isFile: string -> bool): (r: string)
    ensures r != ""
    ensures r == Resolve(cwd, filename + ".ts") || r == Resolve(cwd, filename + ".tsx")
         || r == Resolve(cwd, filename + ".js")
    ensures isFile(Resolve(cwd, filename + ".ts")) ==> r == Resolve(cwd, filename + ".ts")
    ensures !isFile(Resolve(cwd, filename + ".ts")) && isFile(Resolve(cwd, filename + ".tsx")) ==>
      r == Resolve(cwd, filename + ".tsx")
    ensures !isFile(Resolve(cwd, filename + ".ts")) && !isFile(Resolve(cwd, filename + ".tsx")) ==>
      r == Resolve(cwd, filename + ".js")
  {
    var extension :=
      if isFile(Resolve(cwd, filename + ".ts")) then ".ts"
      else if isFile(Resolve(cwd, filename + ".tsx")) then ".tsx"
      else ".js";
    assert |Resolve(cwd, filename + extension)| >= |filename + extension|;
    Resolve(cwd, filename + extension)
  }

  /** The manifest's `source` field: absent, one path or a list of paths. */
  datatype Source = NoSource | OneSource(path: string) | SourceList(paths: seq<string>)

  predicate SourceGiven(source: Source) {
    source.SourceList? || (source.OneSource? && source.path != "")
  }

  function ResolveAll(cwd: string, files: seq<string>): (r: seq<string>)
    ensures |r| == |files|
    ensures forall i :: 0 <= i < |files| ==> r[i] == Resolve(cwd, files[i])
  {
    if |files| == 0 then [] else [Resolve(cwd, files[0])] + ResolveAll(cwd, files[1..])
  }

  /** `src/index.{ts,tsx,js}` when `src` is a directory, else `index.{ts,tsx,js}`. */
  function DefaultEntry(cwd: string, isDir: string -> bool, isFile: string -> bool): string {
    if isDir(Resolve(cwd, "src")) then JsOrTs(cwd, "src/index", isFile) else JsOrTs(cwd, "index", isFile)
  }

  /**
   * The patterns `getInput` expands: the command-line entries, else the
   * manifest's `source`, else the default entry. The manifest's `module`
   * field is the last alternative in the source, but the default entry is
   * never empty, so it is never reached.
   */
  function InputPatterns(entries: seq<string>, cwd: string, source: Source, pkgModule: string,
                         isDir: string -> bool, isFile: string -> bool): (r: seq<string>)
    ensures |entries| > 0 ==> r == entries
    ensures |entries| == 0 && source.OneSource? && source.path != "" ==> r == [Resolve(cwd, source.path)]
    ensures |entries| == 0 && source.SourceList? ==> r == ResolveAll(cwd, source.paths)
    ensures |entries| == 0 && !SourceGiven(source) ==> r == [DefaultEntry(cwd, isDir, isFile)]
  {
    if |entries| > 0 then entries
    else if SourceGiven(source) then
      (match source
       case OneSource(p) => [Resolve(cwd, p)]
       case SourceList(ps) => ResolveAll(cwd, ps)
       case NoSource => [])
    else
      var srcIndex := if isDir(Resolve(cwd, "src")) then JsOrTs(cwd, "src/index", isFile) else "";
      var candidate := if srcIndex != "" then srcIndex else JsOrTs(cwd, "index", isFile);
      if candidate != "" then [candidate] else [pkgModule]
  }

  /** The manifest's `module` field never changes the inputs. */
  lemma InputIgnoresModule(entries: seq<string>, cwd: string, source: Source, m1: string, m2: string,
                           isDir: string -> bool, isFile: string -> bool)
    ensures InputPatterns(entries, cwd, source, m1, isDir, isFile)
         == InputPatterns(entries, cwd, source, m2, isDir, isFile)
  {
  }

  /** The concatenation of the files each pattern expands to. */
  function Globbed(patterns: seq<string>, glob: string -> seq<string>): seq<string> {
    if |patterns| == 0 then [] else Globbed(patterns[..|patterns| - 1], glob) + glob(patterns[|patterns| - 1])
  }

  /** A file is an input exactly when some pattern expands to it. */
  lemma {:induction false} GlobbedMembers(patterns: seq<string>, glob: string -> seq<string>, f: string)
    ensures f in Globbed(patterns, glob) <==> exists i :: 0 <= i < |patterns| && f in glob(patterns[i])
  {
    if |patterns| > 0 {
      var init := patterns[..|patterns| - 1];
      GlobbedMembers(init, glob, f);
      if f in glob(patterns[|patterns| - 1]) {
        assert 0 <= |patterns| - 1 < |patterns|;
      }
      if exists i :: 0 <= i < |patterns| && f in glob(patterns[i]) {
        var i :| 0 <= i < |patterns| && f in glob(patterns[i]);
        if i < |patterns| - 1 {
          assert init[i] == patterns[i];
        }
      }
      forall i | 0 <= i < |init| ensures init[i] == patterns[i] { }
    }
  }

  /** `getInput`: every pattern is globbed and the matches are pushed in order. */
  method GetInput(entries: seq<string>, cwd: string, source: Source, pkgModule: string,
                  isDir: string -> bool, isFile: string -> bool, glob: string -> seq<string>)
    returns (input: seq<string>)
    ensures input == Globbed(InputPatterns(entries, cwd, source, pkgModule, isDir, isFile), glob)
  {
    var patterns := InputPatterns(entries, cwd, source, pkgModule, isDir, isFile);
    input := [];
    var i := 0;
    while i < |patterns|
      invariant 0 <= i <= |patterns|
      invariant input == Globbed(patterns[..i], glob)
    {
      assert patterns[..i + 1][..i] == patterns[..i];
      input := input + glob(patterns[i]);
      i := i + 1;
    }
    assert patterns[..i] == patterns;
  }

  // ---------------------------------------------------------------------------
  // getOutput

  /** The length of the trailing run of lower-case ASCII letters. */
  function TrailingLower(p: string): (n: nat)
    ensures n <= |p|
    ensures forall i :: |p| - n <= i < |p| ==> 'a' <= p[i] <= 'z'
    ensures n < |p| ==> !('a' <= p[|p| - n - 1] <= 'z')
  {
    if |p| == 0 || !('a' <= p[|p| - 1] <= 'z') then 0 else 1 + TrailingLower(p[..|p| - 1])
  }

  /** `p.match(/\.[a-z]+$/)`: the path ends in a dot and at least one lower-case letter. */
  predicate HasLowerExtension(p: string) {
    var n := TrailingLower(p);
    0 < n < |p| && p[|p| - n - 1] == '.'
  }

  /**
   * `getOutput`: the `--output` option, else the manifest's `main`, else
   * `dist`, resolved against the working directory; a directory or a path
   * without an extension gets `<unscoped package name>.js` inside it.
   */
  function GetOutput(cwd: string, output: string, pkgMain: string, pkgName: string,
                     isDir: string -> bool): (r: string)
  {
    var main := Resolve(cwd, if output != "" then output else if pkgMain != "" then pkgMain else "dist");
    if !HasLowerExtension(main) || isDir(main) then Resolve(main, RemovePkgScope(pkgName) + ".js") else main
  }

  /** The bundle path `getOutput` starts from: `--output`, else the manifest's `main`, else `dist`. */
  function OutputBase(cwd: string, output: string, pkgMain: string): string {
    Resolve(cwd, if output != "" then output else if pkgMain != "" then pkgMain else "dist")
  }

  /**
   * A bundle path with an extension that is not a directory is kept; any
   * other is a directory that receives `<unscoped name>.js`. Either way the
   * result names a file with a lower-case extension.
   */
  lemma GetOutputSpec(cwd: string, output: string, pkgMain: string, pkgName: string, isDir: string -> bool)
    ensures var main := OutputBase(cwd, output, pkgMain);
      var file := RemovePkgScope(pkgName) + ".js";
      var r := GetOutput(cwd, output, pkgMain, pkgName, isDir);
      HasLowerExtension(r)
      && (HasLowerExtension(main) && !isDir(main) ==> r == main)
      && (!HasLowerExtension(main) || isDir(main) ==> EndsWith(r, file))
      && (!HasLowerExtension(main) || isDir(main) ==> IsNormalized(main) && '/' !in file ==>
            Dirname(r) == main && Basename(r) == file)
  {
    var main := OutputBase(cwd, output, pkgMain);
    var file := RemovePkgScope(pkgName) + ".js";
    if !HasLowerExtension(main) || isDir(main) {
      var r := Resolve(main, file);
      ResolveEndsWith(main, file);
      assert EndsWith(r, ".js") by {
        assert r[|r| - |file|..] == file;
        assert r[|r| - 3..] == file[|file| - 3..];
      }
      JsHasLowerExtension(r);
      if IsNormalized(main) && '/' !in file {
        DirnameOfChild(main, file);
        BasenameOfChild(main, file);
      }
    }
  }

  /** A path resolved against a base ends with the path. */
  lemma ResolveEndsWith(base: string, p: string)
    ensures EndsWith(Resolve(base, p), p)
  {
    var r := Resolve(base, p);
    if !IsAbsolute(p) {
      var pre := if |base| > 0 && base[|base| - 1] == '/' then base else base + "/";
      assert r == pre + p;
      assert r[|r| - |p|..] == p;
    } else {
      assert r[|r| - |p|..] == r;
    }
  }

  /** A path ending in `.js` has a lower-case extension. */
  lemma JsHasLowerExtension(p: string)
    requires EndsWith(p, ".js")
    ensures HasLowerExtension(p)
  {
    var n := |p|;
    assert p[n - 1] == 's' && p[n - 2] == 'j' && p[n - 3] == '.' by {
      assert p[n - 3..] == ".js";
    }
    assert TrailingLower(p[..n - 2]) == 0;
    assert p[..n - 1][..n - 2] == p[..n - 2];
    assert TrailingLower(p[..n - 1]) == 1;
    assert TrailingLower(p) == 2;
  }

  // ---------------------------------------------------------------------------
  // getEntries

  /** One input resolved against the working directory; a directory stands for its `index.js`. */
  function EntryFor(cwd: string, file: string, isDir: string -> bool): string {
    var f := Resolve(cwd, file);
    if isDir(f) then Resolve(f, "index.js") else f
  }

  function EntriesFor(cwd: string, input: seq<string>, isDir: string -> bool): (r: seq<string>)
    ensures |r| == |input|
    ensures forall i :: 0 <= i < |input| ==> r[i] == EntryFor(cwd, input[i], isDir)
  {
    if |input| == 0 then [] else [EntryFor(cwd, input[0], isDir)] + EntriesFor(cwd, input[1..], isDir)
  }

  /**
   * `getEntries`: every input's entry file, each once, in the order of
   * their first appearance.
   */
  function GetEntries(input: seq<string>, cwd: string, isDir: string -> bool): (r: seq<string>)
    ensures NoDuplicates(r)
    ensures forall f :: f in r <==> exists i :: 0 <= i < |input| && f == EntryFor(cwd, input[i], isDir)
    ensures forall i, j :: 0 <= i < j < |r| ==>
      IndexOf(EntriesFor(cwd, input, isDir), r[i]) < IndexOf(EntriesFor(cwd, input, isDir), r[j])
  {
    var all := EntriesFor(cwd, input, isDir);
    DedupSpec(all);
    assert forall f :: f in all <==> exists i :: 0 <= i < |input| && f == EntryFor(cwd, input[i], isDir) by {
      forall f ensures f in all <==> exists i :: 0 <= i < |input| && f == EntryFor(cwd, input[i], isDir) {
        if f in all {
          var i :| 0 <= i < |all| && all[i] == f;
          assert f == EntryFor(cwd, input[i], isDir);
        }
      }
    }
    Dedup(all)
  }

  // ---------------------------------------------------------------------------
  // getDeclarationDir

  /** `getDeclarationDir`: the directory of the manifest's `types` (or `typings`) file, else of the bundle. */
  function GetDeclarationDir(cwd: string, output: string, types: string, typings: string): string {
    var result := if types != "" || typings != "" then Resolve(cwd, if types != "" then types else typings) else output;
    Dirname(result)
  }

  /**
   * Declarations are written into the directory holding the declared types
   * file (`types` before `typings`, resolved against the working directory),
   * or the bundle when the manifest declares none: that file lies directly
   * inside the directory.
   */
  lemma DeclarationsBesideTypes(cwd: string, output: string, types: string, typings: string)
    ensures var declared := if types != "" then types else typings;
      var file := if declared != "" then Resolve(cwd, declared) else output;
      var dir := GetDeclarationDir(cwd, output, types, typings);
      dir == Dirname(file)
      && (IsNormalized(file) && file != "/" ==> IsNormalized(dir) && Resolve(dir, Basename(file)) == file)
      && (IsNormalized(cwd) && IsCleanRelative(declared) ==> IsNormalized(file) && file != "/")
  {
    var declared := if types != "" then types else typings;
    var file := if declared != "" then Resolve(cwd, declared) else output;
    if IsNormalized(cwd) && IsCleanRelative(declared) {
      ResolveNormalized(cwd, declared);
      ResolveEndsWith(cwd, declared);
    }
    if IsNormalized(file) && file != "/" {
      DirnameNormalized(file);
      DirnameBasename(file);
    }
  }

  /** A relative path without empty segments and without a trailing separator, such as `lib/index.d.ts`. */
  predicate IsCleanRelative(p: string) {
    p != "" && p[0] != '/' && p[|p| - 1] != '/'
    && forall i :: 0 <= i < |p| - 1 ==> !(p[i] == '/' && p[i + 1] == '/')
  }

  /** A clean relative path resolved inside a normalised directory is normalised. */
  lemma ResolveNormalized(d: string, p: string)
    requires IsNormalized(d)
    requires IsCleanRelative(p)
    ensures IsNormalized(Resolve(d, p))
  {
    var pre := if d == "/" then d else d + "/";
    var r := Resolve(d, p);
    assert r == pre + p;
    forall i | 0 <= i < |r| - 1
      ensures !(r[i] == '/' && r[i + 1] == '/')
    {
      if i + 1 < |d| {
        assert r[i] == d[i] && r[i + 1] == d[i + 1];
      } else if i + 1 < |pre| {
        assert r[i] == d[|d| - 1];
      } else if i + 1 == |pre| {
        assert r[i + 1] == p[0];
      } else {
        assert r[i] == p[i - |pre|] && r[i + 1] == p[i - |pre| + 1];
      }
    }
    assert r[|r| - 1] == p[|p| - 1];
  }
}
