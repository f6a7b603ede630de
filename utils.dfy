/**
 * The string and list helpers of src/utils.js: package-scope removal,
 * CLI flag serialisation, `arrify`, `--define` value conversion, the
 * `a=b,c=d` mapping parsers, object truthiness and regular-expression
 * escaping.
 */
module Utils {
  import opened Wrappers
  import opened Seqs
  import opened JsValues

  // ---------------------------------------------------------------------------
  // removePkgScope: global, case-insensitive replace of /@[a-z\d][\w-.]+\//

  predicate IsAsciiLetter(c: char) { 'a' <= c <= 'z' || 'A' <= c <= 'Z' }
  predicate IsDigit(c: char) { '0' <= c <= '9' }

  /** `[a-z\d]` under the `i` flag. */
  predicate IsScopeHead(c: char) { IsAsciiLetter(c) || IsDigit(c) }

  /** `[\w-.]`: letters, digits, `_`, `-` and `.`. */
  predicate IsScopeChar(c: char) { IsScopeHead(c) || c == '_' || c == '-' || c == '.' }

  /** The number of scope characters in a row starting at index `i`. */
  function ScopeRun(s: string, i: nat): (n: nat)
    requires i <= |s|
    ensures i + n <= |s|
    ensures forall j :: i <= j < i + n ==> IsScopeChar(s[j])
    ensures i + n < |s| ==> !IsScopeChar(s[i + n])
    decreases |s| - i
  {
    if i == |s| || !IsScopeChar(s[i]) then 0 else 1 + ScopeRun(s, i + 1)
  }

  /** The length of a match of `@[a-z\d][\w-.]+/` at the start of `s`, or 0 when there is none. */
  function ScopeMatch(s: string): (m: nat)
    ensures m <= |s|
    ensures m != 0 ==> m >= 4 && s[0] == '@' && s[m - 1] == '/'
  {
    if |s| >= 4 && s[0] == '@' && IsScopeHead(s[1]) then
      var n := ScopeRun(s, 2);
      if n >= 1 && 2 + n < |s| && s[2 + n] == '/' then 3 + n else 0
    else 0
  }

  /** `removePkgScope(s)`: every `@scope/` match, scanned left to right, is deleted. */
  function RemovePkgScope(s: string): (r: string)
    ensures |r| <= |s|
    decreases |s|
  {
    if |s| == 0 then ""
    else
      var m := ScopeMatch(s);
      if m > 0 then RemovePkgScope(s[m..]) else [s[0]] + RemovePkgScope(s[1..])
  }

  /** A string without '@' holds no scope and is returned unchanged. */
  lemma {:induction false} RemovePkgScopeNoAt(s: string)
    requires '@' !in s
    ensures RemovePkgScope(s) == s
    decreases |s|
  {
    if |s| > 0 {
      assert s[0] in s;
      assert forall c :: c in s[1..] ==> c in s;
      RemovePkgScopeNoAt(s[1..]);
      assert [s[0]] + s[1..] == s;
    }
  }

  /** A character other than '@' cannot start a scope, so it is kept. */
  lemma RemovePkgScopeCons(c: char, u: string)
    requires c != '@'
    ensures RemovePkgScope([c] + u) == [c] + RemovePkgScope(u)
  {
    var t := [c] + u;
    assert t[0] == c;
    assert ScopeMatch(t) == 0;
    assert t[1..] == u;
  }

  /** Text without '@' in front of the rest passes through untouched. */
  lemma {:induction false} RemovePkgScopePrefix(p: string, s: string)
    requires '@' !in p
    ensures RemovePkgScope(p + s) == p + RemovePkgScope(s)
    decreases |p|
  {
    if |p| > 0 {
      var c, q := p[0], p[1..];
      assert p == [c] + q;
      assert c != '@' by { assert p[0] in p; }
      assert '@' !in q by {
        forall i | 0 <= i < |q| ensures q[i] != '@' {
          assert q[i] == p[i + 1];
          assert p[i + 1] in p;
        }
      }
      assert p + s == [c] + (q + s);
      RemovePkgScopeCons(c, q + s);
      RemovePkgScopePrefix(q, s);
      assert [c] + (q + RemovePkgScope(s)) == p + RemovePkgScope(s);
    } else {
      assert p + s == s;
    }
  }

  predicate IsScopeName(scope: string) {
    |scope| >= 2 && IsScopeHead(scope[0]) && forall i :: 1 <= i < |scope| ==> IsScopeChar(scope[i])
  }

  lemma {:induction false} ScopeRunCovers(s: string, i: nat, k: nat)
    requires i <= k <= |s|
    requires forall j :: i <= j < k ==> IsScopeChar(s[j])
    ensures ScopeRun(s, i) >= k - i
    decreases k - i
  {
    if i < k {
      ScopeRunCovers(s, i + 1, k);
    }
  }

  /** A leading `@scope/` is deleted and the scan continues after it. */
  lemma RemovePkgScopeScoped(scope: string, rest: string)
    requires IsScopeName(scope)
    ensures RemovePkgScope("@" + scope + "/" + rest) == RemovePkgScope(rest)
  {
    var s := "@" + scope + "/" + rest;
    assert s[1] == scope[0];
    assert forall j :: 2 <= j < 1 + |scope| ==> s[j] == scope[j - 1];
    ScopeRunCovers(s, 2, 1 + |scope|);
    assert s[1 + |scope|] == '/';
    assert ScopeRun(s, 2) == |scope| - 1;
    assert ScopeMatch(s) == 2 + |scope|;
    assert s[2 + |scope|..] == rest;
  }

  /** Where no scope starts, the character is kept and the scan moves on by one. */
  lemma RemovePkgScopeUnmatched(s: string)
    requires |s| > 0 && ScopeMatch(s) == 0
    ensures RemovePkgScope(s) == [s[0]] + RemovePkgScope(s[1..])
  {
  }

  /** `@` followed by text starts a match exactly when the text opens with a scope name and a `/`. */
  lemma ScopeMatchSpec(rest: string)
    ensures ScopeMatch("@" + rest) > 0 <==>
      exists n :: 0 <= n < |rest| && IsScopeName(rest[..n]) && rest[n] == '/'
  {
    if ScopeMatch("@" + rest) > 0 {
      ScopeMatchFound(rest);
    }
    if exists n :: 0 <= n < |rest| && IsScopeName(rest[..n]) && rest[n] == '/' {
      var n :| 0 <= n < |rest| && IsScopeName(rest[..n]) && rest[n] == '/';
      ScopeMatchAt(rest, n);
    }
  }

  lemma ScopeMatchFound(rest: string)
    requires ScopeMatch("@" + rest) > 0
    ensures var n := ScopeRun("@" + rest, 2) + 1;
      n < |rest| && IsScopeName(rest[..n]) && rest[n] == '/'
  {
    var s := "@" + rest;
    ScopeNameAfterAt(s);
    assert s[1..] == rest;
  }

  lemma ScopeNameAfterAt(s: string)
    requires ScopeMatch(s) > 0
    ensures var n := ScopeRun(s, 2) + 1;
      n + 1 < |s| && IsScopeName(s[1..n + 1]) && s[n + 1] == '/'
  {
    var n := ScopeRun(s, 2) + 1;
    var scope := s[1..n + 1];
    forall i | 1 <= i < n ensures IsScopeChar(scope[i]) {
      assert scope[i] == s[i + 1];
    }
  }

  lemma ScopeMatchAt(rest: string, n: nat)
    requires n < |rest| && IsScopeName(rest[..n]) && rest[n] == '/'
    ensures ScopeMatch("@" + rest) > 0
  {
    var s := "@" + rest;
    assert s[1] == rest[..n][0];
    forall j | 2 <= j < n + 1 ensures IsScopeChar(s[j]) {
      assert s[j] == rest[..n][j - 1];
    }
    ScopeRunCovers(s, 2, n + 1);
    assert s[n + 1] == '/';
  }

  /** An `@` that starts no scope, as the first of `@@scope/`, is kept; the scope after it is still removed. */
  lemma RemovePkgScopeDoubleAt(scope: string, rest: string)
    requires IsScopeName(scope)
    ensures RemovePkgScope("@@" + scope + "/" + rest) == "@" + RemovePkgScope(rest)
  {
    var s := "@@" + scope + "/" + rest;
    var t := "@" + scope + "/" + rest;
    assert s == "@" + t;
    assert ScopeMatch(s) == 0 by { assert !IsScopeHead(s[1]); }
    RemovePkgScopeUnmatched(s);
    assert s[1..] == t;
    RemovePkgScopeScoped(scope, rest);
  }

  /** The pattern is global and unanchored: a scope after '@'-free text is removed too. */
  lemma RemovePkgScopeInside(p: string, scope: string, rest: string)
    requires '@' !in p
    requires IsScopeName(scope)
    ensures RemovePkgScope(p + ("@" + scope + "/" + rest)) == p + RemovePkgScope(rest)
  {
    RemovePkgScopePrefix(p, "@" + scope + "/" + rest);
    RemovePkgScopeScoped(scope, rest);
  }

  // ---------------------------------------------------------------------------
  // arrify

  /** `arrify(value)`: `null`/`undefined` give `[]`, arrays are kept, iterables are spread, anything else is wrapped. */
  function Arrify(v: Value): (r: seq<Value>)
    ensures v.Undefined? || v.Null? ==> r == []
    ensures v.Arr? ==> r == v.items
    ensures v.Str? || v.Bool? || v.Num? || v.Obj? || v.RegExp? ==> r == [v]
    ensures v.SetOf? ==> r == v.elems
    ensures v.MapOf? ==> |r| == |v.entries| && forall i :: 0 <= i < |r| ==> r[i] == Arr([v.entries[i].0, v.entries[i].1])
  {
    match v
    case Undefined => []
    case Null => []
    case Arr(items) => items
    case Str(_) => [v]
    case SetOf(elems) => elems
    case MapOf(entries) => seq(|entries|, i requires 0 <= i < |entries| => Arr([entries[i].0, entries[i].1]))
    case _ => [v]
  }

  // ---------------------------------------------------------------------------
  // parseArgs

  /** The second argument of `parseArgs`; an absent field is `Undefined`. */
  datatype ParseArgsOptions = ParseArgsOptions(keysToFilter: Value, defaultArgs: Value, requiredArgs: Value)

  /** The flags one option contributes: `--no-k` for `false`, `--k` for `true`, `--k v` for another truthy `v`. */
  function EncodeOption(key: string, v: Value): seq<Value> {
    if v == Bool(false) then [Str("--no-" + key)]
    else if Truthy(v) then [Str("--" + key)] + (if v == Bool(true) then [] else [v])
    else []
  }

  /** The flags of the options in enumeration order, skipping the keys in `filterOut`. */
  function Flags(opts: seq<(string, Value)>, filterOut: seq<Value>): seq<Value> {
    if |opts| == 0 then []
    else
      var last := opts[|opts| - 1];
      Flags(opts[..|opts| - 1], filterOut) + (if Str(last.0) in filterOut then [] else EncodeOption(last.0, last.1))
  }

  /** Appends each of `req`, in order, that is not already present. */
  function AppendMissing(base: seq<Value>, req: seq<Value>): seq<Value> {
    if |req| == 0 then base
    else
      var a := AppendMissing(base, req[..|req| - 1]);
      if req[|req| - 1] in a then a else a + [req[|req| - 1]]
  }

  function FilterOut(options: ParseArgsOptions): seq<Value> {
    [Str("_")] + Arrify(options.keysToFilter)
  }

  /** What `parseArgs(opts, options)` returns. */
  function ParseArgsResult(opts: seq<(string, Value)>, options: ParseArgsOptions): seq<Value> {
    var flags := Flags(opts, FilterOut(options));
    AppendMissing(if |flags| == 0 then Arrify(options.defaultArgs) else flags, Arrify(options.requiredArgs))
  }

  /** `parseArgs(opts, options)`: serialises options as CLI flags, then falls back to defaults and appends required flags. */
  method ParseArgs(opts: seq<(string, Value)>, options: ParseArgsOptions) returns (args: seq<Value>)
    ensures args == ParseArgsResult(opts, options)
  {
    var keysToFilter := Arrify(options.keysToFilter);
    var defaultArgs := Arrify(options.defaultArgs);
    var requiredArgs := Arrify(options.requiredArgs);

    var filterOut := [Str("_")] + keysToFilter;
    args := [];
    var i := 0;
    while i < |opts|
      invariant 0 <= i <= |opts|
      invariant args == Flags(opts[..i], filterOut)
    {
      var o := opts[i].0;
      var v := opts[i].1;
      if Str(o) !in filterOut {
        if v == Bool(false) {
          args := args + [Str("--no-" + o)];
        }
        if Truthy(v) {
          args := args + [Str("--" + o)] + (if v == Bool(true) then [] else [v]);
        }
      }
      assert opts[..i + 1][..i] == opts[..i];
      i := i + 1;
    }
    assert opts[..|opts|] == opts;

    if |args| == 0 {
      args := defaultArgs;
    }
    ghost var base := args;

    var j := 0;
    while j < |requiredArgs|
      invariant 0 <= j <= |requiredArgs|
      invariant args == AppendMissing(base, requiredArgs[..j])
    {
      var r := requiredArgs[j];
      if r !in args {
        args := args + [r];
      }
      assert requiredArgs[..j + 1][..j] == requiredArgs[..j];
      j := j + 1;
    }
    assert requiredArgs[..|requiredArgs|] == requiredArgs;
  }

  /** Options are serialised one after another, in enumeration order. */
  lemma {:induction false} FlagsConcat(a: seq<(string, Value)>, b: seq<(string, Value)>, filterOut: seq<Value>)
    ensures Flags(a + b, filterOut) == Flags(a, filterOut) + Flags(b, filterOut)
    decreases |b|
  {
    if |b| == 0 {
      assert a + b == a;
    } else {
      var init, last := b[..|b| - 1], b[|b| - 1];
      var e := if Str(last.0) in filterOut then [] else EncodeOption(last.0, last.1);
      assert (a + b)[..|a + b| - 1] == a + init;
      assert (a + b)[|a + b| - 1] == last;
      assert Flags(a + b, filterOut) == Flags(a + init, filterOut) + e;
      assert Flags(b, filterOut) == Flags(init, filterOut) + e;
      FlagsConcat(a, init, filterOut);
      assert (Flags(a, filterOut) + Flags(init, filterOut)) + e == Flags(a, filterOut) + (Flags(init, filterOut) + e);
    }
  }

  /** A filtered key contributes nothing: removing it from the options does not change the flags. */
  lemma {:induction false} FlagsSkipFiltered(a: seq<(string, Value)>, k: string, v: Value, b: seq<(string, Value)>, filterOut: seq<Value>)
    requires Str(k) in filterOut
    ensures Flags(a + [(k, v)] + b, filterOut) == Flags(a + b, filterOut)
  {
    FlagsConcat(a + [(k, v)], b, filterOut);
    FlagsConcat(a, [(k, v)], filterOut);
    FlagsConcat(a, b, filterOut);
    assert Flags([(k, v)], filterOut) == Flags([], filterOut) + [];
  }

  /** The required flags not in `base`, in their order (with repeats). */
  function NotIn(req: seq<Value>, base: seq<Value>): (r: seq<Value>)
    ensures forall x :: x in r <==> x in req && x !in base
  {
    if |req| == 0 then []
    else NotIn(req[..|req| - 1], base) + (if req[|req| - 1] in base then [] else [req[|req| - 1]])
  }

  /** The appended part is the missing required flags, each at its first occurrence, in `requiredArgs` order. */
  lemma {:induction false} AppendMissingOrder(base: seq<Value>, req: seq<Value>)
    ensures AppendMissing(base, req) == base + Dedup(NotIn(req, base))
    decreases |req|
  {
    if |req| > 0 {
      var init, x := req[..|req| - 1], req[|req| - 1];
      AppendMissingOrder(base, init);
      var m := NotIn(init, base);
      DedupSpec(m);
      DedupSnoc(m, x);
      assert x in base + Dedup(m) <==> x in base || x in m;
      if x !in base {
        assert NotIn(req, base) == m + [x];
        assert (base + Dedup(m)) + [x] == base + (Dedup(m) + [x]);
      } else {
        assert NotIn(req, base) == m;
      }
    }
  }

  /**
   * Every required flag ends up present; the appended part is duplicate-free,
   * new, drawn from the required flags, and in their order.
   */
  lemma AppendMissingSpec(base: seq<Value>, req: seq<Value>)
    ensures AppendMissing(base, req) == base + Dedup(NotIn(req, base))
    ensures StartsWith(AppendMissing(base, req), base)
    ensures forall x :: x in req ==> x in AppendMissing(base, req)
    ensures forall x :: x in AppendMissing(base, req)[|base|..] ==> x in req && x !in base
    ensures NoDuplicates(AppendMissing(base, req)[|base|..])
  {
    AppendMissingOrder(base, req);
    var d := Dedup(NotIn(req, base));
    DedupSpec(NotIn(req, base));
    assert (base + d)[..|base|] == base;
    assert (base + d)[|base|..] == d;
  }

  /** The defaults are used exactly when no option produced a flag. */
  lemma ParseArgsDefaults(opts: seq<(string, Value)>, options: ParseArgsOptions)
    ensures var flags := Flags(opts, FilterOut(options));
      StartsWith(ParseArgsResult(opts, options), if |flags| == 0 then Arrify(options.defaultArgs) else flags)
  {
    var flags := Flags(opts, FilterOut(options));
    AppendMissingSpec(if |flags| == 0 then Arrify(options.defaultArgs) else flags, Arrify(options.requiredArgs));
  }

  // ---------------------------------------------------------------------------
  // JSON string literals (what JSON.stringify produces for a string)

  function HexDigit(n: nat): char
    requires n < 16
  {
    if n < 10 then ('0' as int + n) as char else ('a' as int + n - 10) as char
  }

  /** The escape `JSON.stringify` writes for one character. */
  function JsonEscapeChar(c: char): string {
    if c == '"' then "\\\""
    else if c == '\\' then "\\\\"
    else if c == '\U{8}' then "\\b"
    else if c == '\U{C}' then "\\f"
    else if c == '\n' then "\\n"
    else if c == '\r' then "\\r"
    else if c == '\t' then "\\t"
    else if (c as int) < 0x20 then "\\u00" + [HexDigit(c as int / 16), HexDigit(c as int % 16)]
    else [c]
  }

  function JsonEscape(s: string): string {
    if |s| == 0 then "" else JsonEscapeChar(s[0]) + JsonEscape(s[1..])
  }

  /** `JSON.stringify(s)` for a string `s`. */
  function JsonQuote(s: string): string {
    "\"" + JsonEscape(s) + "\""
  }

  function HexValue(c: char): Option<nat> {
    if '0' <= c <= '9' then Some(c as int - '0' as int)
    else if 'a' <= c <= 'f' then Some(c as int - 'a' as int + 10)
    else if 'A' <= c <= 'F' then Some(c as int - 'A' as int + 10)
    else None
  }

  /** The character a two-character escape `\e` stands for. */
  function SimpleEscape(e: char): Option<char> {
    if e == '"' then Some('"') else if e == '\\' then Some('\\') else if e == '/' then Some('/')
    else if e == 'b' then Some('\U{8}') else if e == 'f' then Some('\U{C}') else if e == 'n' then Some('\n')
    else if e == 'r' then Some('\r') else if e == 't' then Some('\t') else None
  }

  /** The code unit of a `\uXXXX` escape at the start of `s`. */
  function UnicodeEscape(s: string): Option<nat>
    requires |s| >= 6
  {
    if s[0] == '\\' && s[1] == 'u' && HexValue(s[2]).Some? && HexValue(s[3]).Some? && HexValue(s[4]).Some? && HexValue(s[5]).Some? then
      Some(((HexValue(s[2]).value * 16 + HexValue(s[3]).value) * 16 + HexValue(s[4]).value) * 16 + HexValue(s[5]).value)
    else None
  }

  /** Decodes the first character of a JSON string body: the character and how many characters it took. */
  function DecodeOne(s: string): (r: Option<(char, nat)>)
    requires |s| > 0
    ensures r.Some? ==> 1 <= r.value.1 <= |s|
  {
    if s[0] == '"' || (s[0] as int) < 0x20 then None
    else if s[0] != '\\' then Some((s[0], 1))
    else if |s| >= 2 && SimpleEscape(s[1]).Some? then Some((SimpleEscape(s[1]).value, 2))
    else if |s| >= 6 && UnicodeEscape(s).Some? && !(0xD800 <= UnicodeEscape(s).value < 0xE000) then
      Some((UnicodeEscape(s).value as char, 6))
    else None
  }

  /** Decodes the body of a JSON string literal. */
  function JsonUnescape(s: string): Option<string>
    decreases |s|
  {
    if |s| == 0 then Some("")
    else
      match DecodeOne(s)
      case None => None
      case Some(d) =>
        match JsonUnescape(s[d.1..])
        case None => None
        case Some(rest) => Some([d.0] + rest)
  }

  /** The escape written for `c` decodes back to `c`, consuming exactly the escape. */
  lemma DecodeOneEscape(c: char, rest: string)
    ensures DecodeOne(JsonEscapeChar(c) + rest) == Some((c, |JsonEscapeChar(c)|))
  {
    var e := JsonEscapeChar(c);
    var t := e + rest;
    if (c as int) < 0x20 && c != '\U{8}' && c != '\U{C}' && c != '\n' && c != '\r' && c != '\t' {
      var hi := c as int / 16;
      var lo := c as int % 16;
      assert t[..6] == e;
      assert HexValue(HexDigit(0)) == Some(0);
      assert HexValue(HexDigit(hi)) == Some(hi);
      assert HexValue(HexDigit(lo)) == Some(lo);
      assert UnicodeEscape(t) == Some(c as int);
    } else if |e| == 2 {
      assert t[0] == '\\' && t[1] == e[1];
    } else {
      assert t[0] == c;
    }
  }

  lemma {:induction false} JsonUnescapeEscape(s: string)
    ensures JsonUnescape(JsonEscape(s)) == Some(s)
    decreases |s|
  {
    if |s| > 0 {
      JsonUnescapeEscape(s[1..]);
      var e := JsonEscapeChar(s[0]);
      var rest := JsonEscape(s[1..]);
      assert JsonEscape(s) == e + rest;
      DecodeOneEscape(s[0], rest);
      assert (e + rest)[|e|..] == rest;
      assert [s[0]] + s[1..] == s;
    }
  }

  /** The text of a JSON string literal, if `s` is one. */
  function JsonUnquote(s: string): Option<string> {
    if |s| >= 2 && s[0] == '"' && s[|s| - 1] == '"' then JsonUnescape(s[1..|s| - 1]) else None
  }

  /** `JSON.stringify` of a string is a JSON string literal denoting exactly that string. */
  lemma JsonQuoteRoundTrip(s: string)
    ensures JsonUnquote(JsonQuote(s)) == Some(s)
  {
    JsonUnescapeEscape(s);
    var q := JsonQuote(s);
    assert q[1..|q| - 1] == JsonEscape(s);
  }

  // ---------------------------------------------------------------------------
  // toReplacementExpression

  predicate IsLineTerminator(c: char) {
    c == '\n' || c == '\r' || c == '\U{2028}' || c == '\U{2029}'
  }

  /** `value` matches /^(['"])(.+)\1$/: quoted with the same quote at both ends around one line of text. */
  predicate IsQuoted(value: string) {
    |value| >= 3 && (value[0] == '\'' || value[0] == '"') && value[|value| - 1] == value[0]
    && forall i :: 1 <= i < |value| - 1 ==> !IsLineTerminator(value[i])
  }

  function AsciiLower(c: char): char {
    if 'A' <= c <= 'Z' then (c as int + 32) as char else c
  }

  function AsciiLowerString(s: string): (r: string)
    ensures |r| == |s|
    ensures forall i :: 0 <= i < |s| ==> r[i] == AsciiLower(s[i])
  {
    if |s| == 0 then "" else [AsciiLower(s[0])] + AsciiLowerString(s[1..])
  }

  /** `value` matches /^(true|false|\d+)$/i. */
  predicate IsLiteralToken(value: string) {
    AsciiLowerString(value) == "true" || AsciiLowerString(value) == "false"
    || (|value| > 0 && forall i :: 0 <= i < |value| ==> IsDigit(value[i]))
  }

  /** `toReplacementExpression(value, name)`: the replacement source text and the name it replaces. */
  function ToReplacementExpression(value: string, name: string): (string, string) {
    if IsQuoted(value) then (JsonQuote(value[1..|value| - 1]), name)
    else if |name| > 0 && name[0] == '@' then (value, name[1..])
    else if IsLiteralToken(value) then (value, name)
    else (JsonQuote(value), name)
  }

  /**
   * The four rules, in priority order: a quoted value becomes a string literal
   * of its inner text; an `@name` replaces by the raw expression; booleans and
   * digit strings stay literals; anything else becomes a string literal.
   */
  lemma ToReplacementExpressionSpec(value: string, name: string)
    ensures var (v, n) := ToReplacementExpression(value, name);
      && (IsQuoted(value) ==> JsonUnquote(v) == Some(value[1..|value| - 1]) && n == name)
      && (!IsQuoted(value) && |name| > 0 && name[0] == '@' ==> v == value && "@" + n == name)
      && (!IsQuoted(value) && !(|name| > 0 && name[0] == '@') ==>
            n == name && (if IsLiteralToken(value) then v == value else JsonUnquote(v) == Some(value)))
  {
    if IsQuoted(value) {
      JsonQuoteRoundTrip(value[1..|value| - 1]);
    } else if |name| > 0 && name[0] == '@' {
      assert "@" + name[1..] == name;
    } else if !IsLiteralToken(value) {
      JsonQuoteRoundTrip(value);
    }
  }

  // ---------------------------------------------------------------------------
  // parseMappingArgument / parseAliasArgument

  /** The `processValue` callbacks the build passes: none (for `--globals`) or `toReplacementExpression` (for `--define`). */
  datatype ProcessValue = NoProcessing | ReplacementExpression

  /** The key and (possibly undefined) value of one `key=value` segment: `let [key, value] = s.split('=')`. */
  function KeyValue(segment: string): (string, Option<string>) {
    var parts := Split(segment, '=');
    (parts[0], if |parts| > 1 then Some(parts[1]) else None)
  }

  /** The entry one segment writes, or the TypeError `toReplacementExpression` raises on an undefined value. */
  function MappingEntry(segment: string, process: ProcessValue): Result<(string, Option<string>)> {
    var (key, value) := KeyValue(segment);
    match process
    case NoProcessing => Ok((key, value))
    case ReplacementExpression =>
      if value.None? then Err(TypeError("Cannot read properties of undefined (reading 'match')"))
      else
        var (v, k) := ToReplacementExpression(value.value, key);
        Ok((k, Some(v)))
  }

  /** The object built from the segments, later keys overwriting earlier ones; the first error wins. */
  function MappingOf(segments: seq<string>, process: ProcessValue): Result<map<string, Option<string>>> {
    if |segments| == 0 then Ok(map[])
    else
      match MappingOf(segments[..|segments| - 1], process)
      case Err(e) => Err(e)
      case Ok(m) =>
        match MappingEntry(segments[|segments| - 1], process)
        case Err(e) => Err(e)
        case Ok(kv) => Ok(m[kv.0 := kv.1])
  }

  /** `parseMappingArgument(s, processValue)`: parses `a=b,c=d` into an object. */
  method ParseMappingArgument(s: string, process: ProcessValue) returns (r: Result<map<string, Option<string>>>)
    ensures r == MappingOf(Split(s, ','), process)
  {
    var segments := Split(s, ',');
    var globals: map<string, Option<string>> := map[];
    var i := 0;
    while i < |segments|
      invariant 0 <= i <= |segments|
      invariant MappingOf(segments[..i], process) == Ok(globals)
    {
      var kv := KeyValue(segments[i]);
      var key := kv.0;
      var value := kv.1;
      if process == ReplacementExpression {
        if value.None? {
          MappingStep(segments, i, process);
          MappingErrorPersists(segments, i + 1, process);
          return Err(TypeError("Cannot read properties of undefined (reading 'match')"));
        }
        var rv := ToReplacementExpression(value.value, key);
        value, key := Some(rv.0), rv.1;
      }
      assert MappingEntry(segments[i], process) == Ok((key, value));
      MappingStep(segments, i, process);
      globals := globals[key := value];
      i := i + 1;
    }
    assert segments[..|segments|] == segments;
    r := Ok(globals);
  }

  /** One more segment either fails with its own error or writes its entry into the object built so far. */
  lemma MappingStep(segments: seq<string>, i: nat, process: ProcessValue)
    requires i < |segments|
    requires MappingOf(segments[..i], process).Ok?
    ensures MappingEntry(segments[i], process).Err? ==>
      MappingOf(segments[..i + 1], process) == Err(MappingEntry(segments[i], process).error)
    ensures MappingEntry(segments[i], process).Ok? ==>
      var kv := MappingEntry(segments[i], process).value;
      MappingOf(segments[..i + 1], process) == Ok(MappingOf(segments[..i], process).value[kv.0 := kv.1])
  {
    assert segments[..i + 1][..i] == segments[..i];
    assert segments[..i + 1][i] == segments[i];
  }

  /** Once a prefix of the segments fails, the whole parse fails with the same error. */
  lemma {:induction false} MappingErrorPersists(segments: seq<string>, n: nat, process: ProcessValue)
    requires n <= |segments|
    requires MappingOf(segments[..n], process).Err?
    ensures MappingOf(segments, process) == MappingOf(segments[..n], process)
  {
    if n < |segments| {
      var init := segments[..|segments| - 1];
      assert init[..n] == segments[..n];
      MappingErrorPersists(init, n, process);
    } else {
      assert segments[..n] == segments;
    }
  }

  /** The index of the last segment writing `key`, or -1. */
  function LastWriter(segments: seq<string>, process: ProcessValue, key: string): int
    ensures -1 <= LastWriter(segments, process, key) < |segments|
    ensures var w := LastWriter(segments, process, key);
      w >= 0 ==> MappingEntry(segments[w], process).Ok? && MappingEntry(segments[w], process).value.0 == key
  {
    if |segments| == 0 then -1
    else
      var e := MappingEntry(segments[|segments| - 1], process);
      if e.Ok? && e.value.0 == key then |segments| - 1 else LastWriter(segments[..|segments| - 1], process, key)
  }

  /** Later duplicate keys overwrite earlier ones: each key holds the value its last segment wrote. */
  lemma {:induction false} MappingLastWins(segments: seq<string>, process: ProcessValue, key: string)
    requires MappingOf(segments, process).Ok?
    ensures var m := MappingOf(segments, process).value; var w := LastWriter(segments, process, key);
      (key in m <==> w >= 0) && (w >= 0 ==> m[key] == MappingEntry(segments[w], process).value.1)
  {
    if |segments| > 0 {
      var init := segments[..|segments| - 1];
      MappingLastWins(init, process, key);
      var e := MappingEntry(segments[|segments| - 1], process);
      if e.value.0 != key {
        var w := LastWriter(init, process, key);
        if w >= 0 { assert segments[w] == init[w]; }
      }
    }
  }

  /** Some segment has no '=' and so no value. */
  predicate HasBareSegment(segments: seq<string>) {
    exists i :: 0 <= i < |segments| && '=' !in segments[i]
  }

  /** A bare segment is among all but the last segment, or is the last one. */
  lemma BareSegmentLast(segments: seq<string>)
    requires |segments| > 0
    ensures HasBareSegment(segments) <==>
      HasBareSegment(segments[..|segments| - 1]) || '=' !in segments[|segments| - 1]
  {
    var init := segments[..|segments| - 1];
    if HasBareSegment(init) {
      var i :| 0 <= i < |init| && '=' !in init[i];
      assert segments[i] == init[i];
    }
    if HasBareSegment(segments) {
      var i :| 0 <= i < |segments| && '=' !in segments[i];
      if i < |init| { assert init[i] == segments[i]; }
    }
  }

  /** A segment fails exactly when it is a `--define` segment without '='. */
  lemma MappingEntryError(segment: string, process: ProcessValue)
    ensures MappingEntry(segment, process).Err? <==> process == ReplacementExpression && '=' !in segment
  {
    SplitPieces(segment, '=');
  }

  /** An error comes exactly from a `--define` segment without '='. */
  lemma {:induction false} MappingErrors(segments: seq<string>, process: ProcessValue)
    ensures MappingOf(segments, process).Err? <==> process == ReplacementExpression && HasBareSegment(segments)
  {
    if |segments| > 0 {
      var init := segments[..|segments| - 1];
      var last := segments[|segments| - 1];
      MappingErrors(init, process);
      MappingEntryError(last, process);
      BareSegmentLast(segments);
    }
  }

  /** One `{find, replacement}` pair of `--alias`. */
  datatype Alias = Alias(find: string, replacement: Option<string>)

  /** `parseAliasArgument(s)`: one alias per comma-separated segment, in order. */
  function ParseAliasArgument(s: string): (r: seq<Alias>)
    ensures |r| == |Split(s, ',')|
    ensures forall i :: 0 <= i < |r| ==> (r[i].find, r[i].replacement) == KeyValue(Split(s, ',')[i])
  {
    var segments := Split(s, ',');
    seq(|segments|, i requires 0 <= i < |segments| => var kv := KeyValue(segments[i]); Alias(kv.0, kv.1))
  }

  /** Aliases whose parts hold neither ',' nor '=' survive being written as `find=replacement,...` and parsed back. */
  lemma ParseAliasRoundTrip(aliases: seq<(string, string)>)
    requires |aliases| >= 1
    requires forall i :: 0 <= i < |aliases| ==>
      ',' !in aliases[i].0 && '=' !in aliases[i].0 && ',' !in aliases[i].1 && '=' !in aliases[i].1
    ensures var text := Join(seq(|aliases|, i requires 0 <= i < |aliases| => aliases[i].0 + "=" + aliases[i].1), ',');
      ParseAliasArgument(text) == seq(|aliases|, i requires 0 <= i < |aliases| => Alias(aliases[i].0, Some(aliases[i].1)))
  {
    var segs := seq(|aliases|, i requires 0 <= i < |aliases| => aliases[i].0 + "=" + aliases[i].1);
    forall i | 0 <= i < |segs| ensures ',' !in segs[i] && KeyValue(segs[i]) == (aliases[i].0, Some(aliases[i].1)) {
      SplitPrefix(aliases[i].0, aliases[i].1, '=');
      SplitNoSeparator(aliases[i].1, '=');
      assert segs[i] == aliases[i].0 + ['='] + aliases[i].1;
    }
    SplitJoin(segs, ',');
  }

  // ---------------------------------------------------------------------------
  // isTruthy

  /** `isTruthy(obj)`: truthy, and not a plain object without own keys. */
  function IsTruthy(v: Value): (r: bool)
    ensures r <==> Truthy(v) && v != Obj(map[])
  {
    if !Truthy(v) then false
    else !v.Obj? || |v.fields| > 0
  }

  // ---------------------------------------------------------------------------
  // escapeStringRegexp

  /** The characters escaped with a backslash: | \ { } ( ) [ ] ^ $ + * ? . */
  predicate IsRegExpSpecial(c: char) {
    c in "|\\{}()[]^$+*?."
  }

  function EscapeChar(c: char): string {
    if IsRegExpSpecial(c) then ['\\', c] else if c == '-' then "\\x2d" else [c]
  }

  function Escape(s: string): string {
    if |s| == 0 then "" else EscapeChar(s[0]) + Escape(s[1..])
  }

  /** `escapeStringRegexp(value)`: strings are escaped, anything else is returned as is. */
  function EscapeStringRegexp(v: Value): (r: Value)
    ensures !v.Str? ==> r == v
    ensures v.Str? ==> r.Str? && Unescape(r.s) == Some(v.s)
  {
    if v.Str? then
      EscapeRoundTrip(v.s);
      Str(Escape(v.s))
    else v
  }

  /** Reads an escaped pattern back as the literal text it matches. */
  function Unescape(p: string): Option<string>
    decreases |p|
  {
    if |p| == 0 then Some("")
    else if p[0] == '\\' then
      if |p| >= 2 && IsRegExpSpecial(p[1]) then
        match Unescape(p[2..]) case Some(rest) => Some([p[1]] + rest) case None => None
      else if |p| >= 4 && p[..4] == "\\x2d" then
        match Unescape(p[4..]) case Some(rest) => Some(['-'] + rest) case None => None
      else None
    else if IsRegExpSpecial(p[0]) || p[0] == '-' then None
    else
      match Unescape(p[1..]) case Some(rest) => Some([p[0]] + rest) case None => None
  }

  /** Escaping loses nothing: the escaped pattern reads back as exactly the input. */
  lemma {:induction false} EscapeRoundTrip(s: string)
    ensures Unescape(Escape(s)) == Some(s)
    decreases |s|
  {
    if |s| > 0 {
      EscapeRoundTrip(s[1..]);
      var e := EscapeChar(s[0]);
      var rest := Escape(s[1..]);
      assert Escape(s) == e + rest;
      if IsRegExpSpecial(s[0]) {
        assert (e + rest)[2..] == rest;
      } else if s[0] == '-' {
        assert (e + rest)[..4] == "\\x2d";
        assert (e + rest)[4..] == rest;
      } else {
        assert (e + rest)[1..] == rest;
      }
      assert [s[0]] + s[1..] == s;
    }
  }
}
