/**
 * POSIX paths as '/'-separated strings, with the parts of Node's `path`
 * module the build configuration uses: `resolve` of a base and one more
 * path, `dirname` and `basename`. Normalisation is not modelled: `.`/`..`
 * segments and repeated or trailing separators are kept, and an empty
 * relative path gives the base with a trailing separator; `IsNormalized` names the shape
 * `path.resolve` always produces, for the lemmas that need it.
 */
module Paths {
  import opened Seqs

  predicate IsAbsolute(p: string) {
    |p| > 0 && p[0] == '/'
  }

  /** An absolute path without empty segments and without a trailing separator (other than the root). */
  predicate IsNormalized(p: string) {
    IsAbsolute(p)
    && (forall i :: 0 <= i < |p| - 1 ==> !(p[i] == '/' && p[i + 1] == '/'))
    && (p == "/" || p[|p| - 1] != '/')
  }

  /** `path.resolve(base, p)`: an absolute `p` wins, otherwise `p` is appended to `base`. */
  function Resolve(base: string, p: string): (r: string)
    ensures IsAbsolute(p) ==> r == p
    ensures IsAbsolute(base) ==> IsAbsolute(r)
  {
    if IsAbsolute(p) then p
    else if |base| > 0 && base[|base| - 1] == '/' then base + p
    else base + "/" + p
  }

  /** The index of the last '/' in `p`, or -1. */
  function LastSlash(p: string): (k: int)
    ensures -1 <= k < |p|
    ensures 0 <= k ==> p[k] == '/'
    ensures forall j :: k < j < |p| ==> p[j] != '/'
  {
    if |p| == 0 then -1
    else if p[|p| - 1] == '/' then |p| - 1
    else LastSlash(p[..|p| - 1])
  }

  /** `path.dirname(p)` for paths without a trailing separator. */
  function Dirname(p: string): string {
    var k := LastSlash(p);
    if k < 0 then "." else if k == 0 then "/" else p[..k]
  }

  /** `path.basename(p)`: what follows the last separator. */
  function Basename(p: string): (b: string)
    ensures '/' !in b
    ensures EndsWith(p, b)
  {
    var k := LastSlash(p);
    p[k + 1..]
  }

  /** Appending separator-free text keeps the last separator where it was. */
  lemma {:induction false} LastSlashAppend(p: string, t: string)
    requires '/' !in t
    ensures LastSlash(p + t) == LastSlash(p)
    decreases |t|
  {
    if |t| > 0 {
      assert (p + t)[..|p + t| - 1] == p + t[..|t| - 1];
      assert t[|t| - 1] in t;
      LastSlashAppend(p, t[..|t| - 1]);
    } else {
      assert p + t == p;
    }
  }

  /** Cutting separator-free text off the end keeps the last separator where it was. */
  lemma LastSlashPrefix(p: string, n: nat)
    requires n <= |p|
    requires forall j :: n <= j < |p| ==> p[j] != '/'
    ensures LastSlash(p[..n]) == LastSlash(p)
  {
    var t := p[n..];
    assert p == p[..n] + t;
    assert forall j :: 0 <= j < |t| ==> t[j] == p[n + j];
    LastSlashAppend(p[..n], t);
  }

  /** The directory of a separator-free name resolved inside a normalised directory is that directory. */
  lemma DirnameOfChild(d: string, b: string)
    requires IsNormalized(d)
    requires '/' !in b
    ensures Dirname(Resolve(d, b)) == d
  {
    var r := Resolve(d, b);
    if d == "/" {
      assert r == "/" + b;
      LastSlashAppend("/", b);
    } else {
      assert r == (d + "/") + b;
      LastSlashAppend(d + "/", b);
      assert LastSlash(d + "/") == |d|;
      assert r[..|d|] == d;
    }
  }

  /** The directory of a normalised path is normalised. */
  lemma DirnameNormalized(p: string)
    requires IsNormalized(p)
    ensures IsNormalized(Dirname(p))
  {
    var k := LastSlash(p);
    assert p[0] == '/';
    assert 0 <= k;
    if k > 0 {
      var d := p[..k];
      assert d[k - 1] == p[k - 1];
      assert p[k - 1] != '/';
    }
  }

  /** The base name of a separator-free name resolved inside any directory is that name. */
  lemma BasenameOfChild(d: string, b: string)
    requires '/' !in b
    ensures Basename(Resolve(d, b)) == b
  {
    var pre := if |d| > 0 && d[|d| - 1] == '/' then d else d + "/";
    assert Resolve(d, b) == pre + b;
    LastSlashAppend(pre, b);
    assert LastSlash(pre) == |pre| - 1;
  }

  /** A normalised path other than the root is its base name resolved inside its directory. */
  lemma DirnameBasename(p: string)
    requires IsNormalized(p) && p != "/"
    ensures Resolve(Dirname(p), Basename(p)) == p
  {
    var k := LastSlash(p);
    assert p[0] == '/';
    assert 0 <= k;
    var b := p[k + 1..];
    assert k < |p| - 1;
    assert b[0] == p[k + 1];
    if k == 0 {
      assert Resolve("/", b) == "/" + b;
      assert "/" + b == p;
    } else {
      assert p[k - 1] != '/';
      assert Dirname(p) == p[..k];
      assert p[..k] + "/" + b == p;
    }
  }
}
