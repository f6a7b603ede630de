/**
 * JavaScript values as the modelled code sees them, with JavaScript's
 * truthiness, property reads, `Object.assign` and the deep merge of
 * `lodash.merge`. Object keys form a map (their order is not modelled);
 * numbers are integers.
 */
module JsValues {

  datatype Value =
    | Undefined
    | Null
    | Bool(b: bool)
    | Num(n: int)
    | Str(s: string)
    | Arr(items: seq<Value>)
    | Obj(fields: map<string, Value>)
    | RegExp(source: string)
    | SetOf(elems: seq<Value>)
    | MapOf(entries: seq<(Value, Value)>)

  /** JavaScript truthiness: `undefined`, `null`, `false`, `0` and `""` are falsy. */
  predicate Truthy(v: Value) {
    match v
    case Undefined => false
    case Null => false
    case Bool(b) => b
    case Num(n) => n != 0
    case Str(s) => s != ""
    case _ => true
  }

  /** `v[key]` on a value that is not `null`/`undefined`: `undefined` unless `v` is an object holding `key`. */
  function Get(v: Value, key: string): Value {
    if v.Obj? && key in v.fields then v.fields[key] else Undefined
  }

  /** The own enumerable properties `Object.assign` copies from a source (objects only). */
  function OwnProps(v: Value): map<string, Value> {
    if v.Obj? then v.fields else map[]
  }

  /** `Object.assign(target, source)` on a target object's properties: the source's properties win. */
  function Assign(target: map<string, Value>, source: Value): (r: map<string, Value>)
    ensures r.Keys == target.Keys + OwnProps(source).Keys
    ensures forall k :: k in OwnProps(source) ==> r[k] == OwnProps(source)[k]
    ensures forall k :: k in target && k !in OwnProps(source) ==> r[k] == target[k]
  {
    target + OwnProps(source)
  }

  /** A value `lodash.merge` copies as a whole rather than descending into. */
  predicate IsLeaf(v: Value) {
    !v.Obj? && !v.Arr? && !v.Undefined?
  }

  /**
   * The nested rule of `lodash.merge`, for the value `b` that a source holds
   * at a key or index below the top level: objects are merged key by key and
   * arrays index by index, recursively; an `undefined` keeps what `a` holds;
   * any other value replaces what `a` holds. The top-level call is `MergeTop`.
   */
  function Merge(a: Value, b: Value): Value
    decreases b
  {
    match b
    case Undefined => a
    case Obj(bm) =>
      if a.Obj? then
        Obj(map k | k in a.fields.Keys + bm.Keys ::
              if k in bm then (if k in a.fields then Merge(a.fields[k], bm[k]) else bm[k])
              else a.fields[k])
      else b
    case Arr(bs) =>
      if a.Arr? then
        Arr(seq(if |a.items| < |bs| then |bs| else |a.items|, i requires 0 <= i < |a.items| || 0 <= i < |bs| =>
              if i < |bs| then (if i < |a.items| then Merge(a.items[i], bs[i]) else bs[i])
              else a.items[i]))
      else b
    case _ => b
  }

  /** A step into a value: an object key or an array index. */
  datatype Step = Key(k: string) | Index(i: nat)

  /** The value reached by following `path` from `v`, `undefined` where the path leaves the value. */
  function Lookup(v: Value, path: seq<Step>): Value
    decreases |path|
  {
    if |path| == 0 then v
    else
      match path[0]
      case Key(k) => if v.Obj? && k in v.fields then Lookup(v.fields[k], path[1..]) else Undefined
      case Index(i) => if v.Arr? && i < |v.items| then Lookup(v.items[i], path[1..]) else Undefined
  }

  /** Incoming values win: wherever `b` holds a leaf, the merge holds that same leaf. */
  lemma {:induction false} MergeIncomingLeafWins(a: Value, b: Value, path: seq<Step>)
    requires IsLeaf(Lookup(b, path))
    ensures Lookup(Merge(a, b), path) == Lookup(b, path)
    decreases |path|
  {
    if |path| > 0 {
      match path[0]
      case Key(k) =>
        assert b.Obj? && k in b.fields;
        if a.Obj? && k in a.fields {
          MergeIncomingLeafWins(a.fields[k], b.fields[k], path[1..]);
        } else if a.Obj? {
          assert Merge(a, b).fields[k] == b.fields[k];
        }
      case Index(i) =>
        assert b.Arr? && i < |b.items|;
        if a.Arr? && i < |a.items| {
          MergeIncomingLeafWins(a.items[i], b.items[i], path[1..]);
        } else if a.Arr? {
          assert Merge(a, b).items[i] == b.items[i];
        }
    }
  }

  /**
   * `b` says nothing at `path`: following the path, `b` either runs out
   * (`undefined`, a missing key, an index past its end) or has an object
   * (array) where `a` has one too.
   */
  predicate Untouched(a: Value, b: Value, path: seq<Step>)
    decreases |path|
  {
    if b.Undefined? then true
    else if |path| == 0 then false
    else
      match path[0]
      case Key(k) =>
        a.Obj? && b.Obj? && (k !in b.fields || (k in a.fields && Untouched(a.fields[k], b.fields[k], path[1..])))
      case Index(i) =>
        a.Arr? && b.Arr? && (i >= |b.items| || (i < |a.items| && Untouched(a.items[i], b.items[i], path[1..])))
  }

  /** Existing values survive: wherever `b` says nothing, the merge holds what `a` holds. */
  lemma {:induction false} MergeKeepsExisting(a: Value, b: Value, path: seq<Step>)
    requires Untouched(a, b, path)
    ensures Lookup(Merge(a, b), path) == Lookup(a, path)
    decreases |path|
  {
    if !b.Undefined? {
      var m := Merge(a, b);
      match path[0]
      case Key(k) =>
        if k !in b.fields {
          if k in a.fields {
            assert m.fields[k] == a.fields[k];
          } else {
            assert k !in m.fields;
          }
        } else {
          MergeKeepsExisting(a.fields[k], b.fields[k], path[1..]);
        }
      case Index(i) =>
        if i >= |b.items| {
          if i < |a.items| {
            assert m.items[i] == a.items[i];
          } else {
            assert |m.items| <= i;
          }
        } else {
          MergeKeepsExisting(a.items[i], b.items[i], path[1..]);
        }
    }
  }

  /**
   * `Object(a)` as `lodash.merge` takes its target: `undefined` and `null`
   * give a fresh `{}`, objects and arrays are the target itself. The wrapper
   * object of a boolean, number or string is modelled as `{}`.
   */
  function ToObject(a: Value): (r: Value)
    ensures a.Obj? || a.Arr? ==> r == a
    ensures !a.Obj? && !a.Arr? ==> r.Obj?
  {
    if a.Obj? || a.Arr? then a else Obj(map[])
  }

  /** An object merged into an object, or an array into an array. */
  predicate SameKind(target: Value, source: Value) {
    (target.Obj? && source.Obj?) || (target.Arr? && source.Arr?)
  }

  /**
   * The top-level call `lodash.merge(a, b)`: the target is `Object(a)`, and
   * only an object (array) source has keys (indices) to merge into it. A
   * falsy or primitive source leaves the target as it is; the nested rules
   * of `Merge` apply below the top level.
   */
  function MergeTop(a: Value, b: Value): (r: Value)
    ensures !SameKind(ToObject(a), b) ==> r == ToObject(a)
    ensures r.Obj? == ToObject(a).Obj? && r.Arr? == ToObject(a).Arr?
  {
    var target := ToObject(a);
    if SameKind(target, b) then Merge(target, b) else target
  }

  /** At the top level, every leaf that an object (array) source has below it is what the merge holds there. */
  lemma MergeTopLeafWins(a: Value, b: Value, path: seq<Step>)
    requires |path| > 0 && IsLeaf(Lookup(b, path))
    requires SameKind(ToObject(a), b)
    ensures Lookup(MergeTop(a, b), path) == Lookup(b, path)
  {
    MergeIncomingLeafWins(ToObject(a), b, path);
  }

  /** At the top level, wherever the source says nothing, the merge holds what `Object(a)` holds. */
  lemma MergeTopKeepsExisting(a: Value, b: Value, path: seq<Step>)
    requires Untouched(ToObject(a), b, path)
    ensures Lookup(MergeTop(a, b), path) == Lookup(ToObject(a), path)
  {
    if SameKind(ToObject(a), b) {
      MergeKeepsExisting(ToObject(a), b, path);
    }
  }
}
