/**
 * The target matrix of `build` (src/actions/build.js:114-133): the format
 * list and one build step per (entry, format) pair.
 */
module BuildFormats {
  import opened Seqs

  /** `f === 'esm' ? 'es' : f`. */
  function AliasFormat(f: string): string {
    if f == "esm" then "es" else f
  }

  /** `formats.map(...)` with the alias applied: `esm` is gone, every other format is kept where it was. */
  function AliasAll(fs: seq<string>): (r: seq<string>)
    ensures |r| == |fs|
    ensures "esm" !in r
    ensures forall i :: 0 <= i < |fs| && fs[i] != "esm" ==> r[i] == fs[i]
    ensures forall i :: 0 <= i < |fs| && fs[i] == "esm" ==> r[i] == "es"
  {
    seq(|fs|, i requires 0 <= i < |fs| => AliasFormat(fs[i]))
  }

  /** The elements of `s` other than `x`, in order. */
  function Without(s: seq<string>, x: string): (r: seq<string>)
    ensures x !in r
    ensures forall y :: y in r <==> y in s && y != x
    ensures multiset(r) == multiset(s)[x := 0]
  {
    if |s| == 0 then []
    else
      var rest := Without(s[..|s| - 1], x);
      var last := s[|s| - 1];
      assert s == s[..|s| - 1] + [last];
      if last == x then rest else rest + [last]
  }

  lemma {:induction false} WithoutNoDuplicates(s: seq<string>, x: string)
    requires NoDuplicates(s)
    ensures NoDuplicates(Without(s, x))
  {
    if |s| > 0 {
      var init := s[..|s| - 1];
      var last := s[|s| - 1];
      assert NoDuplicates(init);
      WithoutNoDuplicates(init, x);
      if last != x {
        assert last !in init by {
          forall i | 0 <= i < |init| ensures init[i] != last { assert s[i] != s[|s| - 1]; }
        }
      }
    }
  }

  /**
   * `formats.sort((a, b) => a === 'cjs' ? -1 : a > b ? 1 : 0)` as V8 runs it on
   * a duplicate-free list: `cjs` moves to the front and the rest keep their
   * order. The comparator is not a consistent order, so this ordering of the
   * rest is V8's outcome, not something the language promises.
   */
  function CjsFirst(fs: seq<string>): seq<string> {
    (if "cjs" in fs then ["cjs"] else []) + Without(fs, "cjs")
  }

  /** The formats to build: split on ',', `esm` read as `es`, duplicates removed, `cjs` first. */
  function Formats(format: string): seq<string> {
    CjsFirst(Dedup(AliasAll(Split(format, ','))))
  }

  /** On a duplicate-free list: still duplicate-free, same elements, `cjs` first when present. */
  lemma CjsFirstSpec(d: seq<string>)
    requires NoDuplicates(d)
    ensures var r := CjsFirst(d);
      && NoDuplicates(r)
      && (forall f :: f in r <==> f in d)
      && ("cjs" in r ==> r[0] == "cjs")
      && multiset(r) == multiset(d)
  {
    var w := Without(d, "cjs");
    WithoutNoDuplicates(d, "cjs");
    var r := CjsFirst(d);
    if "cjs" in d {
      assert r == ["cjs"] + w;
      forall i, j | 0 <= i < j < |r| ensures r[i] != r[j] {
        assert r[j] == w[j - 1];
        if i > 0 { assert r[i] == w[i - 1]; }
      }
      DedupCount(d, "cjs");
      assert multiset(r) == multiset{"cjs"} + multiset(w);
    } else {
      assert r == w;
      assert multiset(d)["cjs"] == 0;
    }
  }

  /**
   * The format list has no duplicates and never says `esm`; it holds exactly
   * the requested formats, and `cjs`, when requested, comes first.
   */
  lemma FormatsSpec(format: string)
    ensures var r := Formats(format); var requested := AliasAll(Split(format, ','));
      && NoDuplicates(r)
      && "esm" !in r
      && (forall f :: f in r <==> f in requested)
      && ("cjs" in r ==> r[0] == "cjs")
      && multiset(r) == multiset(Dedup(requested))
  {
    var requested := AliasAll(Split(format, ','));
    var d := Dedup(requested);
    DedupSpec(requested);
    CjsFirstSpec(d);
    var r := CjsFirst(d);
    assert r == Formats(format);
    assert "esm" !in requested by {
      forall i | 0 <= i < |requested| ensures requested[i] != "esm" {
        assert requested[i] == AliasFormat(Split(format, ',')[i]);
      }
    }
  }

  /** In a duplicate-free sequence an element present occurs once. */
  lemma DedupCount(s: seq<string>, x: string)
    requires NoDuplicates(s)
    requires x in s
    ensures multiset(s)[x] == 1
  {
    var k :| 0 <= k < |s| && s[k] == x;
    assert s == s[..k] + [x] + s[k + 1..];
    assert x !in s[..k] by {
      forall i | 0 <= i < k ensures s[..k][i] != x { assert s[i] != s[k]; }
    }
    assert x !in s[k + 1..] by {
      forall i | k + 1 <= i < |s| ensures s[i] != x { assert s[k] != s[i]; }
    }
  }

  /** Apart from `cjs`, the formats keep the order in which they were first requested. */
  lemma FormatsKeepOrder(format: string)
    ensures Without(Formats(format), "cjs") == Without(Dedup(AliasAll(Split(format, ','))), "cjs")
  {
    var d := Dedup(AliasAll(Split(format, ',')));
    var w := Without(d, "cjs");
    WithoutIdempotent(w, "cjs");
    if "cjs" in d {
      WithoutCons("cjs", w);
    } else {
      assert Formats(format) == [] + w;
      assert [] + w == w;
    }
  }

  lemma {:induction false} WithoutIdempotent(s: seq<string>, x: string)
    requires x !in s
    ensures Without(s, x) == s
  {
    if |s| > 0 {
      WithoutIdempotent(s[..|s| - 1], x);
      assert s == s[..|s| - 1] + [s[|s| - 1]];
    }
  }

  lemma {:induction false} WithoutCons(x: string, s: seq<string>)
    requires x !in s
    ensures Without([x] + s, x) == s
    decreases |s|
  {
    if |s| == 0 {
      assert [x] + s == [x];
      assert [x][..0] == [];
    } else {
      var init := s[..|s| - 1];
      WithoutCons(x, init);
      assert ([x] + s)[..|[x] + s| - 1] == [x] + init;
      assert s == init + [s[|s| - 1]];
    }
  }

  // ---------------------------------------------------------------------------
  // build steps

  /** One `createConfig(options, entry, format, writeMeta)` call. */
  datatype Step = Step(entry: string, format: string, writeMeta: bool)

  /** The steps of one entry: one per format, `writeMeta` only on the first step of the first entry. */
  function Row(entry: string, formats: seq<string>, firstEntry: bool): (r: seq<Step>)
    ensures |r| == |formats|
    ensures forall j :: 0 <= j < |formats| ==> r[j] == Step(entry, formats[j], firstEntry && j == 0)
  {
    seq(|formats|, j requires 0 <= j < |formats| => Step(entry, formats[j], firstEntry && j == 0))
  }

  /** The steps, entry-major. */
  function StepsOf(entries: seq<string>, formats: seq<string>): seq<Step> {
    if |entries| == 0 then []
    else StepsOf(entries[..|entries| - 1], formats) + Row(entries[|entries| - 1], formats, |entries| == 1)
  }

  /** The double loop that pushes one step per (entry, format) pair. */
  method BuildSteps(entries: seq<string>, formats: seq<string>) returns (steps: seq<Step>)
    ensures steps == StepsOf(entries, formats)
  {
    steps := [];
    var i := 0;
    while i < |entries|
      invariant 0 <= i <= |entries|
      invariant steps == StepsOf(entries[..i], formats)
    {
      assert entries[..i + 1][..i] == entries[..i];
      var j := 0;
      while j < |formats|
        invariant 0 <= j <= |formats|
        invariant steps == StepsOf(entries[..i], formats) + Row(entries[i], formats, i == 0)[..j]
      {
        steps := steps + [Step(entries[i], formats[j], i == 0 && j == 0)];
        assert Row(entries[i], formats, i == 0)[..j + 1] == Row(entries[i], formats, i == 0)[..j] + [Step(entries[i], formats[j], i == 0 && j == 0)];
        j := j + 1;
      }
      assert Row(entries[i], formats, i == 0)[..|formats|] == Row(entries[i], formats, i == 0);
      i := i + 1;
    }
    assert entries[..|entries|] == entries;
  }

  /** The position of (entry `i`, format `j`) among the steps. */
  function Flat(i: nat, j: nat, n: nat): nat {
    i * n + j
  }

  lemma MulMono(a: nat, b: nat, n: nat)
    requires a <= b
    ensures a * n <= b * n
  {
  }

  /**
   * There are |entries|·|formats| steps, entry-major and format-minor: the
   * step at `Flat(i, j, |formats|)` builds entry `i` in format `j`, and only
   * the very first step writes the shared metadata.
   */
  lemma {:induction false} StepsMatrix(entries: seq<string>, formats: seq<string>)
    ensures |StepsOf(entries, formats)| == |entries| * |formats|
    ensures forall i, j {:trigger Flat(i, j, |formats|)} :: 0 <= i < |entries| && 0 <= j < |formats| ==>
      Flat(i, j, |formats|) < |StepsOf(entries, formats)|
      && StepsOf(entries, formats)[Flat(i, j, |formats|)] == Step(entries[i], formats[j], i == 0 && j == 0)
    ensures forall k :: 0 <= k < |StepsOf(entries, formats)| ==> (StepsOf(entries, formats)[k].writeMeta <==> k == 0)
  {
    if |entries| > 0 {
      var init := entries[..|entries| - 1];
      StepsMatrix(init, formats);
      var n := |formats|;
      var m := |entries| - 1;
      var p := StepsOf(init, formats);
      var s := StepsOf(entries, formats);
      assert s == p + Row(entries[m], formats, m == 0);
      assert |s| == m * n + n;
      assert |entries| * n == m * n + n;
      forall i, j | 0 <= i < |entries| && 0 <= j < n
        ensures Flat(i, j, n) < |s| && s[Flat(i, j, n)] == Step(entries[i], formats[j], i == 0 && j == 0)
      {
        if i < m {
          MulMono(i + 1, m, n);
          assert Flat(i, j, n) < (i + 1) * n;
          assert init[i] == entries[i];
        } else {
          assert Flat(i, j, n) == m * n + j;
        }
      }
      forall k | 0 <= k < |s| ensures s[k].writeMeta <==> k == 0 {
        if k >= |p| && m > 0 {
          assert s[k] == Row(entries[m], formats, false)[k - |p|];
        }
      }
    }
  }
}
