/**
 * The custom babel plugin of src/shared/babel-custom.js: merging plugin
 * lists by identity, building config items, and the per-file `config`
 * hook that injects the default plugin and preset.
 *
 * `require.resolve` is a parameter (`resolve`); `babel.createConfigItem`
 * on a `[file, options]` pair gives an item without a name.
 */
module BabelCustom {
  import opened Wrappers
  import opened Seqs
  import opened JsValues
  import Utils

  /** A babel config item: its name ("" when it has none), the resolved file and its options. */
  datatype ConfigItem = ConfigItem(name: string, resolved: string, options: Value)

  /** The identity used for merging: `item.name || item.file.resolved`. */
  function Key(item: ConfigItem): string {
    if item.name != "" then item.name else item.resolved
  }

  function Keys(items: seq<ConfigItem>): (ks: seq<string>)
    ensures |ks| == |items|
    ensures forall i {:trigger ks[i]} :: 0 <= i < |items| ==> ks[i] == Key(items[i])
  {
    seq(|items|, i requires 0 <= i < |items| => Key(items[i]))
  }

  /** `babel.createConfigItem([resolved, options], { type })`. */
  function CreateConfigItem(resolved: string, options: Value): ConfigItem {
    ConfigItem("", resolved, options)
  }

  /** `mergedItems.findIndex(m => key(m) === key)`. */
  function FindIndex(items: seq<ConfigItem>, key: string): (k: int)
    ensures -1 <= k < |items|
    ensures k >= 0 ==> Key(items[k]) == key && forall j :: 0 <= j < k ==> Key(items[j]) != key
    ensures k == -1 <==> key !in Keys(items)
  {
    if |items| == 0 then -1
    else if Key(items[0]) == key then assert Keys(items)[0] == key; 0
    else
      var k := FindIndex(items[1..], key);
      assert Keys(items) == [Key(items[0])] + Keys(items[1..]);
      if k == -1 then -1 else k + 1
  }

  /** One step of `mergeConfigItems`: a new key is appended, a known one is merged into its slot. */
  function MergeItem(merged: seq<ConfigItem>, item: ConfigItem): seq<ConfigItem> {
    var k := FindIndex(merged, Key(item));
    if k == -1 then merged + [item]
    else merged[k := CreateConfigItem(merged[k].resolved, MergeTop(merged[k].options, item.options))]
  }

  /** All items merged from left to right. */
  function MergeAll(items: seq<ConfigItem>): seq<ConfigItem> {
    if |items| == 0 then [] else MergeItem(MergeAll(items[..|items| - 1]), items[|items| - 1])
  }

  function Flatten(lists: seq<seq<ConfigItem>>): seq<ConfigItem> {
    if |lists| == 0 then [] else Flatten(lists[..|lists| - 1]) + lists[|lists| - 1]
  }

  /** Merging one more item is one more `MergeItem` step. */
  lemma MergeAllSnoc(items: seq<ConfigItem>, item: ConfigItem)
    ensures MergeAll(items + [item]) == MergeItem(MergeAll(items), item)
  {
    assert (items + [item])[..|items|] == items;
  }

  /** Merging the next item of the current list. */
  lemma MergeAllStep(done: seq<ConfigItem>, list: seq<ConfigItem>, j: nat)
    requires j < |list|
    ensures MergeAll(done + list[..j + 1]) == MergeItem(MergeAll(done + list[..j]), list[j])
  {
    assert done + list[..j + 1] == (done + list[..j]) + [list[j]];
    MergeAllSnoc(done + list[..j], list[j]);
  }

  /** One more list flattens onto the end. */
  lemma FlattenSnoc(lists: seq<seq<ConfigItem>>, i: nat)
    requires i < |lists|
    ensures Flatten(lists[..i + 1]) == Flatten(lists[..i]) + lists[i]
  {
    assert lists[..i + 1][..i] == lists[..i];
  }

  /** The inner `forEach`: merges the items of one list, in order, into `mergedItems`. */
  method MergeList(mergedItems: seq<ConfigItem>, list: seq<ConfigItem>, ghost done: seq<ConfigItem>)
    returns (r: seq<ConfigItem>)
    requires mergedItems == MergeAll(done)
    ensures r == MergeAll(done + list)
  {
    r := mergedItems;
    assert done + list[..0] == done;
    var j := 0;
    while j < |list|
      invariant 0 <= j <= |list|
      invariant r == MergeAll(done + list[..j])
    {
      var item := list[j];
      ghost var before := r;
      var index := FindIndex(r, Key(item));
      if index == -1 {
        r := r + [item];
      } else {
        r := r[index := CreateConfigItem(r[index].resolved, MergeTop(r[index].options, item.options))];
      }
      assert r == MergeItem(before, item);
      MergeAllStep(done, list, j);
      j := j + 1;
    }
    assert list[..|list|] == list;
  }

  /** `mergeConfigItems(babel, type, ...lists)`. */
  method MergeConfigItems(lists: seq<seq<ConfigItem>>) returns (mergedItems: seq<ConfigItem>)
    ensures mergedItems == MergeAll(Flatten(lists))
  {
    mergedItems := [];
    var i := 0;
    while i < |lists|
      invariant 0 <= i <= |lists|
      invariant mergedItems == MergeAll(Flatten(lists[..i]))
    {
      mergedItems := MergeList(mergedItems, lists[i], Flatten(lists[..i]));
      FlattenSnoc(lists, i);
      i := i + 1;
    }
    assert lists[..|lists|] == lists;
  }

  /** An item whose key is its file: it has no name, or its name is its file. */
  predicate KeyedByFile(item: ConfigItem) {
    item.name == "" || item.name == item.resolved
  }

  /** Every item of the list is keyed by its file. */
  predicate AllKeyedByFile(items: seq<ConfigItem>) {
    forall i :: 0 <= i < |items| ==> KeyedByFile(items[i])
  }

  /**
   * For items keyed by their file (no name, or a name equal to the file):
   * a new key is appended and a known key keeps its slot, and the result is
   * again keyed by file. The requirement matters, see MergedSlotDropsName.
   */
  lemma MergeItemKeys(m: seq<ConfigItem>, x: ConfigItem)
    requires forall i :: 0 <= i < |m| ==> KeyedByFile(m[i])
    requires KeyedByFile(x)
    ensures Keys(MergeItem(m, x)) == Keys(m) + (if Key(x) in Keys(m) then [] else [Key(x)])
    ensures forall i :: 0 <= i < |MergeItem(m, x)| ==> KeyedByFile(MergeItem(m, x)[i])
  {
    var k := FindIndex(m, Key(x));
    var r := MergeItem(m, x);
    if k == -1 {
      assert r == m + [x];
      assert Keys(r) == Keys(m) + [Key(x)];
    } else {
      assert Key(x) in Keys(m) by { assert Keys(m)[k] == Key(x); }
      var merged := CreateConfigItem(m[k].resolved, MergeTop(m[k].options, x.options));
      assert r == m[k := merged];
      assert Key(merged) == Key(m[k]) by { assert KeyedByFile(m[k]); }
      assert Keys(r) == Keys(m) by {
        forall i | 0 <= i < |r| ensures Keys(r)[i] == Keys(m)[i] {
          if i != k { assert r[i] == m[i]; }
        }
      }
    }
  }

  /** The keys of a non-empty list: the keys of all but the last item, then the last key. */
  lemma KeysLast(items: seq<ConfigItem>)
    requires |items| > 0
    ensures Keys(items) == Keys(items[..|items| - 1]) + [Key(items[|items| - 1])]
  {
    var init := items[..|items| - 1];
    forall i | 0 <= i < |items| ensures Keys(items)[i] == (Keys(init) + [Key(items[|items| - 1])])[i] {
      if i < |init| { assert items[i] == init[i]; }
    }
  }

  /** The inductive step of `MergeAllKeys`: the last item, keyed by its file, merged onto the rest. */
  lemma MergeAllKeysStep(items: seq<ConfigItem>)
    requires |items| > 0 && KeyedByFile(items[|items| - 1])
    requires Keys(MergeAll(items[..|items| - 1])) == Dedup(Keys(items[..|items| - 1]))
    requires AllKeyedByFile(MergeAll(items[..|items| - 1]))
    ensures Keys(MergeAll(items)) == Dedup(Keys(items))
    ensures AllKeyedByFile(MergeAll(items))
  {
    var init, x := items[..|items| - 1], items[|items| - 1];
    var m := MergeAll(init);
    assert MergeAll(items) == MergeItem(m, x);
    KeysLast(items);
    DedupSnoc(Keys(init), Key(x));
    MergeItemKeys(m, x);
    assert Key(x) in Keys(m) <==> Key(x) in Keys(init) by { DedupSpec(Keys(init)); }
  }

  /**
   * For items keyed by their file, merging keeps exactly one item per key,
   * in the order the keys first appear.
   */
  lemma {:induction false} MergeAllKeys(items: seq<ConfigItem>)
    requires forall i :: 0 <= i < |items| ==> KeyedByFile(items[i])
    ensures Keys(MergeAll(items)) == Dedup(Keys(items))
    ensures forall i :: 0 <= i < |MergeAll(items)| ==> KeyedByFile(MergeAll(items)[i])
  {
    if |items| > 0 {
      MergeAllKeys(items[..|items| - 1]);
      MergeAllKeysStep(items);
    }
  }

  /**
   * For items keyed by their file, no two results share a key, and every
   * input key survives.
   */
  lemma MergedKeysDistinct(items: seq<ConfigItem>)
    requires forall i :: 0 <= i < |items| ==> KeyedByFile(items[i])
    ensures NoDuplicates(Keys(MergeAll(items)))
    ensures forall key :: key in Keys(MergeAll(items)) <==> key in Keys(items)
  {
    MergeAllKeys(items);
    DedupSpec(Keys(items));
  }

  /**
   * A collision rebuilds the slot with `createConfigItem([file, options])`,
   * which gives no name: the slot's key becomes its file, whatever its name was.
   */
  lemma MergedSlotDropsName(merged: seq<ConfigItem>, item: ConfigItem)
    requires Key(item) in Keys(merged)
    ensures var k := FindIndex(merged, Key(item)); var r := MergeItem(merged, item);
      r[k].name == "" && Key(r[k]) == merged[k].resolved
  {
  }

  /**
   * With named items the keys need not stay distinct: a named item, an unnamed
   * item for the same file, and the named item again leave two slots keyed by
   * that file.
   */
  lemma NamedItemsCanShareKey()
    ensures var r := MergeAll([ConfigItem("n", "x", Obj(map[])), ConfigItem("", "x", Obj(map[])),
                               ConfigItem("n", "y", Obj(map[]))]);
      |r| == 2 && Key(r[0]) == "x" && Key(r[1]) == "x"
  {
    var a, b, c := ConfigItem("n", "x", Obj(map[])), ConfigItem("", "x", Obj(map[])), ConfigItem("n", "y", Obj(map[]));
    assert [a, b, c][..2] == [a, b] && [a, b][..1] == [a] && [a][..0] == [];
    assert MergeAll([a]) == [a];
    assert Keys([a]) == ["n"];
    assert FindIndex([a], Key(b)) == -1;
    assert MergeAll([a, b]) == [a, b];
    assert FindIndex([a, b], Key(c)) == 0;
  }

  /**
   * On a key collision the slot keeps its file and position, takes the
   * incoming options where they hold leaves below an object (array) merged
   * into an object (array), and every other slot is unchanged.
   */
  lemma MergeCollision(merged: seq<ConfigItem>, item: ConfigItem, path: seq<Step>)
    requires Key(item) in Keys(merged)
    requires |path| > 0 && IsLeaf(Lookup(item.options, path))
    requires SameKind(ToObject(merged[FindIndex(merged, Key(item))].options), item.options)
    ensures var k := FindIndex(merged, Key(item)); var r := MergeItem(merged, item);
      |r| == |merged| && r[k].resolved == merged[k].resolved
      && Lookup(r[k].options, path) == Lookup(item.options, path)
      && forall j :: 0 <= j < |r| && j != k ==> r[j] == merged[j]
  {
    var k := FindIndex(merged, Key(item));
    MergeTopLeafWins(merged[k].options, item.options, path);
  }

  /**
   * On a key collision with options that are not an object (such as
   * `false`), lodash merges nothing: the slot keeps `Object(options)` of
   * the existing item, and every other slot is unchanged.
   */
  lemma MergeCollisionPrimitive(merged: seq<ConfigItem>, item: ConfigItem)
    requires Key(item) in Keys(merged)
    requires !item.options.Obj? && !item.options.Arr?
    ensures var k := FindIndex(merged, Key(item)); var r := MergeItem(merged, item);
      |r| == |merged| && r[k].resolved == merged[k].resolved
      && r[k].options == ToObject(merged[k].options)
      && forall j :: 0 <= j < |r| && j != k ==> r[j] == merged[j]
  {
  }

  /**
   * On a key collision the slot keeps its own options (`{}` for none)
   * wherever the incoming ones say nothing, whatever they hold elsewhere.
   */
  lemma MergeCollisionKeeps(merged: seq<ConfigItem>, item: ConfigItem, kept: seq<Step>)
    requires Key(item) in Keys(merged)
    ensures var k := FindIndex(merged, Key(item)); var r := MergeItem(merged, item);
      |r| == |merged| && r[k].resolved == merged[k].resolved
      && (Untouched(ToObject(merged[k].options), item.options, kept) ==>
            Lookup(r[k].options, kept) == Lookup(ToObject(merged[k].options), kept))
  {
    var k := FindIndex(merged, Key(item));
    if Untouched(ToObject(merged[k].options), item.options, kept) {
      MergeTopKeepsExisting(merged[k].options, item.options, kept);
    }
  }

  /** The first item keeps the first slot: its file heads the result. */
  lemma {:induction false} MergeAllFirst(items: seq<ConfigItem>)
    requires |items| > 0
    ensures |MergeAll(items)| > 0 && MergeAll(items)[0].resolved == items[0].resolved
  {
    if |items| > 1 {
      var init := items[..|items| - 1];
      MergeAllFirst(init);
      assert init[0] == items[0];
    } else {
      assert items[..0] == [];
    }
  }

  // ---------------------------------------------------------------------------
  // createConfigItems

  /** One `{ name, value, ...options }` entry: `value` is an explicit `[file, options]` pair. */
  datatype ItemRequest = ItemRequest(name: string, value: Option<(string, Value)>, rest: map<string, Value>)

  function CreateOne(q: ItemRequest, resolve: string -> string): ConfigItem {
    var value := if q.value.Some? then q.value.value else (resolve(q.name), Obj(q.rest));
    CreateConfigItem(value.0, value.1)
  }

  /** `createConfigItems(babel, type, items)`: `value`, else `[require.resolve(name), options]`, per entry. */
  function CreateConfigItems(requests: seq<ItemRequest>, resolve: string -> string): (r: seq<ConfigItem>)
    ensures |r| == |requests|
    ensures forall i :: 0 <= i < |r| ==> r[i].name == "" && KeyedByFile(r[i])
    ensures forall i :: 0 <= i < |r| && requests[i].value.None? ==>
      r[i].resolved == resolve(requests[i].name) && r[i].options == Obj(requests[i].rest)
    ensures forall i :: 0 <= i < |r| && requests[i].value.Some? ==>
      (r[i].resolved, r[i].options) == requests[i].value.value
  {
    seq(|requests|, i requires 0 <= i < |requests| => CreateOne(requests[i], resolve))
  }

  // ---------------------------------------------------------------------------
  // config()

  const ReplacePlugin := "babel-plugin-transform-replace-expressions"
  const Preset := "@jvdx/babel-preset"

  /** The custom options the build passes to the plugin. */
  datatype CustomOptions = CustomOptions(defines: Value, modern: Value, compress: Value, targets: Value, typescript: Value, jsx: Value)

  /** The default plugins: the replace-expressions plugin exactly when there are defines. */
  function DefaultPlugins(defines: Value, resolve: string -> string): (r: seq<ConfigItem>)
    ensures |r| <= 1
    ensures (exists i :: 0 <= i < |r| && r[i].resolved == resolve(ReplacePlugin)) <==> Utils.IsTruthy(defines)
    ensures |r| == 1 ==> r[0].options == Obj(map["replace" := defines])
  {
    if Utils.IsTruthy(defines) then
      var r := CreateConfigItems([ItemRequest(ReplacePlugin, None, map["replace" := defines])], resolve);
      assert r[0].resolved == resolve(ReplacePlugin);
      r
    else CreateConfigItems([], resolve)
  }

  /** The `preset-env` targets: `{ esmodules: true }` for modern builds, else `targets || null`. */
  function PresetTargets(custom: CustomOptions): (t: Value)
    ensures Truthy(custom.modern) ==> t == Obj(map["esmodules" := Bool(true)])
    ensures !Truthy(custom.modern) && Truthy(custom.targets) ==> t == custom.targets
    ensures !Truthy(custom.modern) && !Truthy(custom.targets) ==> t == Null
  {
    if Truthy(custom.modern) then Obj(map["esmodules" := Bool(true)])
    else if Truthy(custom.targets) then custom.targets
    else Null
  }

  /** The preset list injected when no babel configuration file exists. */
  function DefaultPresets(custom: CustomOptions, resolve: string -> string): seq<ConfigItem> {
    CreateConfigItems([ItemRequest(Preset, None, map["preset-env" := Obj(map["targets" := PresetTargets(custom)])])], resolve)
  }

  /** `generatorOpts` for compressed builds: minified, compact, and a filter deciding which comments are printed. */
  datatype GeneratorOpts = GeneratorOpts(minified: bool, compact: bool, shouldPrintComment: string -> bool)

  /** `/[@#]__PURE__/.test(comment)`. */
  predicate ShouldPrintComment(comment: string) {
    Contains(comment, "@__PURE__") || Contains(comment, "#__PURE__")
  }

  /** `s.replace(pattern, replacement)` with a string pattern: only the first occurrence is replaced. */
  function ReplaceFirst(s: string, pattern: string, replacement: string): string
    decreases |s|
  {
    if StartsWith(s, pattern) then replacement + s[|pattern|..]
    else if |s| == 0 then s
    else [s[0]] + ReplaceFirst(s[1..], pattern, replacement)
  }

  /** The configuration files announced, in order, and the set of files seen afterwards. */
  function Announce(files: seq<string>, seen: set<string>): (seq<string>, set<string>) {
    if |files| == 0 then ([], seen)
    else
      var (announced, seen') := Announce(files[..|files| - 1], seen);
      var f := files[|files| - 1];
      if f != "" && f !in seen' then (announced + [f], seen' + {f}) else (announced, seen')
  }

  /**
   * Each configuration file is announced at most once: the announced files
   * are new, distinct and non-empty, every new file is announced, and all of
   * them are remembered.
   */
  lemma {:induction false} AnnounceSpec(files: seq<string>, seen: set<string>)
    ensures var (announced, seen') := Announce(files, seen);
      && seen' == seen + (set f | f in files && f != "")
      && NoDuplicates(announced)
      && (forall f :: f in announced <==> f in files && f != "" && f !in seen)
  {
    if |files| > 0 {
      var init := files[..|files| - 1];
      AnnounceSpec(init, seen);
      assert files == init + [files[|files| - 1]];
    }
  }

  /** A file announced by one call is never announced by a later call of the same factory. */
  lemma AnnouncedOnce(files1: seq<string>, files2: seq<string>, seen: set<string>)
    ensures var (a1, seen1) := Announce(files1, seen);
      forall f :: f in a1 ==> f !in Announce(files2, seen1).0
  {
    AnnounceSpec(files1, seen);
    AnnounceSpec(files2, Announce(files1, seen).1);
  }

  function Message(file: string, cwd: string): string {
    "Using external babel configuration from " + ReplaceFirst(file, cwd, ".")
  }

  function Messages(files: seq<string>, cwd: string): (r: seq<string>)
    ensures |r| == |files|
    ensures forall i :: 0 <= i < |files| ==> r[i] == Message(files[i], cwd)
  {
    seq(|files|, i requires 0 <= i < |files| => Message(files[i], cwd))
  }

  lemma FlattenPair(a: seq<ConfigItem>, b: seq<ConfigItem>)
    ensures Flatten([a, b]) == a + b
  {
    assert [a, b][..1] == [a];
    assert [a][..0] == [];
    assert Flatten([a]) == [] + a;
    assert [] + a == a;
  }

  /** What babel hands the `config` hook: whether a configuration file applies, and which. */
  datatype PartialConfig = PartialConfig(hasFilesystemConfig: bool, babelrc: string, config: string)

  /**
   * The options object babel passes through `config`; the hook updates it in
   * place. The `caller*` fields stand for the fields of `babelOptions.caller`.
   */
  class BabelOptions {
    var callerIsModern: Value
    var callerIsTypescript: Value
    var callerHasJsxRuntime: Value
    var presets: seq<ConfigItem>
    var plugins: seq<ConfigItem>
    var generatorOpts: Option<GeneratorOpts>

    constructor (presets: seq<ConfigItem>, plugins: seq<ConfigItem>, generatorOpts: Option<GeneratorOpts>)
      ensures this.presets == presets && this.plugins == plugins && this.generatorOpts == generatorOpts
      ensures callerIsModern == Undefined && callerIsTypescript == Undefined && callerHasJsxRuntime == Undefined
    {
      this.presets := presets;
      this.plugins := plugins;
      this.generatorOpts := generatorOpts;
      callerIsModern, callerIsTypescript, callerHasJsxRuntime := Undefined, Undefined, Undefined;
    }
  }

  /** The plugin factory; `configs` remembers the configuration files already announced. */
  class Factory {
    var configs: set<string>

    constructor ()
      ensures configs == {}
    {
      configs := {};
    }

    /** The `for (const file of [cfg.babelrc, cfg.config])` loop: announces each new file once and remembers it. */
    method AnnounceFiles(files: seq<string>, cwd: string) returns (messages: seq<string>)
      modifies this
      ensures var (announced, seen) := Announce(files, old(configs));
        configs == seen && messages == Messages(announced, cwd)
    {
      messages := [];
      ghost var announced: seq<string> := [];
      var i := 0;
      while i < |files|
        invariant 0 <= i <= |files|
        invariant (announced, configs) == Announce(files[..i], old(configs))
        invariant messages == Messages(announced, cwd)
      {
        var file := files[i];
        assert files[..i + 1][..i] == files[..i];
        if file != "" && file !in configs {
          configs := configs + {file};
          messages := messages + [Message(file, cwd)];
          announced := announced + [file];
        }
        i := i + 1;
      }
      assert files[..|files|] == files;
    }

    /** The `config(cfg, { customOptions })` hook; returns the messages it prints. */
    method Config(cfg: PartialConfig, options: BabelOptions, custom: CustomOptions, cwd: string, resolve: string -> string)
      returns (messages: seq<string>)
      modifies this, options
      ensures options.callerIsModern == custom.modern && options.callerIsTypescript == custom.typescript
      ensures options.callerHasJsxRuntime == custom.jsx
      ensures options.presets == if cfg.hasFilesystemConfig then old(options.presets) else DefaultPresets(custom, resolve)
      ensures options.plugins == MergeAll(DefaultPlugins(custom.defines, resolve) + old(options.plugins))
      ensures options.generatorOpts == if Truthy(custom.compress) then Some(GeneratorOpts(true, true, ShouldPrintComment)) else old(options.generatorOpts)
      ensures cfg.hasFilesystemConfig ==>
        var (announced, seen) := Announce([cfg.babelrc, cfg.config], old(configs));
        configs == seen && messages == Messages(announced, cwd)
      ensures !cfg.hasFilesystemConfig ==> configs == old(configs) && messages == []
    {
      options.callerIsModern := custom.modern;
      options.callerIsTypescript := custom.typescript;
      options.callerHasJsxRuntime := custom.jsx;

      var defaultPlugins := DefaultPlugins(custom.defines, resolve);

      messages := [];
      if cfg.hasFilesystemConfig {
        messages := AnnounceFiles([cfg.babelrc, cfg.config], cwd);
      } else {
        options.presets := DefaultPresets(custom, resolve);
      }

      var merged := MergeConfigItems([defaultPlugins, options.plugins]);
      FlattenPair(defaultPlugins, options.plugins);
      options.plugins := merged;

      if Truthy(custom.compress) {
        options.generatorOpts := Some(GeneratorOpts(true, true, ShouldPrintComment));
      }
    }
  }

  /** With defines, the replace-expressions plugin heads the merged plugin list. */
  lemma DefaultPluginFirst(defines: Value, plugins: seq<ConfigItem>, resolve: string -> string)
    requires Utils.IsTruthy(defines)
    ensures var r := MergeAll(DefaultPlugins(defines, resolve) + plugins);
      |r| > 0 && r[0].resolved == resolve(ReplacePlugin)
  {
    var d := DefaultPlugins(defines, resolve);
    MergeAllFirst(d + plugins);
  }
}
